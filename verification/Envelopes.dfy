/** The envelope transform: string nodes become envelope records, in the schema and in every row. */
module Envelopes {
  import opened Prelude
  import opened Paths
  import opened Ir
  import opened SchemaChanges

  const ENVELOPE_ALG := "X25519+ML-KEM-768/AES-256-GCM"
  const REDACTED := "[REDACTED]"

  /** What encryption returns for one string; the algorithm is fixed. */
  datatype SealedText = SealedText(iv: string, encDek: string, ct: string, tag: string)

  /**
   Encryption draws fresh randomness for every string, so it may depend on the place in the row
   as well as on the text. Nothing else is assumed of it.
   */
  type Seal = (ValuePath, string) -> SealedText

  const ENVELOPE_FIELDS := ["alg", "iv", "enc_dek", "ct", "tag"]

  function EnvelopeNode(nullable: bool): SchemaNode {
    SchemaNode(nullable, RecordKind(seq(5, i requires 0 <= i < 5 =>
                                          SchemaField(ENVELOPE_FIELDS[i], SchemaNode(false, ScalarKind(StringType))))))
  }

  function EnvelopeValue(s: SealedText): Value {
    Record([Entry("alg", Scalar(String(ENVELOPE_ALG))), Entry("iv", Scalar(String(s.iv))),
            Entry("enc_dek", Scalar(String(s.encDek))), Entry("ct", Scalar(String(s.ct))),
            Entry("tag", Scalar(String(s.tag)))])
  }

  predicate IsStringNode(node: Option<SchemaNode>) {
    node.Some? && node.value.kind == ScalarKind(StringType)
  }

  // ---------------------------------------------------------------------------
  // Schemas
  // ---------------------------------------------------------------------------

  /** `replace_schema_at_path`; `None` is its error. */
  function ReplaceAt(node: SchemaNode, target: Path): Option<SchemaNode>
    decreases |target|
  {
    if target == [] then
      if node.kind == ScalarKind(StringType) then Some(EnvelopeNode(node.nullable)) else None
    else
      match (node.kind, target[0])
      case (ArrayKind(items), ArrayElement) =>
        var r := ReplaceAt(items, target[1..]);
        if r.None? then None else Some(node.(kind := ArrayKind(r.value)))
      case (MapKind(values), MapValue) =>
        var r := ReplaceAt(values, target[1..]);
        if r.None? then None else Some(node.(kind := MapKind(r.value)))
      case (RecordKind(fields), Field(name)) =>
        var i := Find(FieldNames(fields), name);
        if i == |fields| then None
        else
          var r := ReplaceAt(fields[i].schema, target[1..]);
          if r.None? then None else Some(node.(kind := RecordKind(fields[i := SchemaField(name, r.value)])))
      case (CustomKind(typeId, value), LogicalValue) =>
        var r := ReplaceAt(value, target[1..]);
        if r.None? then None else Some(node.(kind := CustomKind(typeId, r.value)))
      case _ => None
  }

  /** One level of a replacement: shape kept, the one child replaced, the others kept. */
  lemma ReplaceLevel(node: SchemaNode, target: Path, segment: Segment)
    requires target != [] && ReplaceAt(node, target).Some?
    ensures ShapeOf(ReplaceAt(node, target).value) == ShapeOf(node)
    ensures Child(node, target[0]).Some? && ReplaceAt(Child(node, target[0]).value, target[1..]).Some?
    ensures Child(ReplaceAt(node, target).value, segment)
            == if segment == target[0] then ReplaceAt(Child(node, segment).value, target[1..]) else Child(node, segment)
  {
    var r := ReplaceAt(node, target).value;
    if node.kind.RecordKind? {
      assert FieldNames(r.kind.fields) == FieldNames(node.kind.fields);
    }
  }

  /** A replacement succeeds exactly at the string nodes. */
  lemma {:induction false} ReplaceDefined(node: SchemaNode, target: Path)
    ensures ReplaceAt(node, target).Some? <==> IsStringNode(NodeAt(node, target))
    decreases |target|
  {
    if target != [] && Child(node, target[0]).Some? { ReplaceDefined(Child(node, target[0]).value, target[1..]); }
  }

  lemma {:induction false} ReplaceHit(node: SchemaNode, target: Path)
    requires ReplaceAt(node, target).Some?
    ensures NodeAt(node, target).Some?
    ensures NodeAt(ReplaceAt(node, target).value, target) == Some(EnvelopeNode(NodeAt(node, target).value.nullable))
    decreases |target|
  {
    if target != [] {
      ReplaceLevel(node, target, target[0]);
      ReplaceHit(Child(node, target[0]).value, target[1..]);
    }
  }

  /** Outside the target nothing changes: shapes agree, and whole nodes agree off its ancestors. */
  lemma {:induction false} ReplaceFrame(node: SchemaNode, target: Path, path: Path)
    requires ReplaceAt(node, target).Some? && !IsPrefix(target, path)
    ensures Agree(node, ReplaceAt(node, target).value, path)
    ensures !IsPrefix(path, target) ==> NodeAt(ReplaceAt(node, target).value, path) == NodeAt(node, path)
    decreases |target|
  {
    ReplaceLevel(node, target, if path == [] then target[0] else path[0]);
    if path != [] && path[0] == target[0] {
      ReplaceFrame(Child(node, path[0]).value, target[1..], path[1..]);
    }
  }

  /** `EnvelopeBinaryTransform::output_schema` with a key: the targets replaced one after another. */
  function ReplaceAll(node: SchemaNode, targets: seq<Path>): Option<SchemaNode> {
    if targets == [] then Some(node)
    else
      var r := ReplaceAll(node, targets[..|targets| - 1]);
      if r.None? then None else ReplaceAt(r.value, targets[|targets| - 1])
  }

  /** No target reaches `path`, and `path` reaches no target. */
  ghost predicate Unrelated(targets: seq<Path>, path: Path) {
    forall i :: 0 <= i < |targets| ==> !IsPrefix(targets[i], path) && !IsPrefix(path, targets[i])
  }

  lemma {:induction false} ReplaceAllFrame(node: SchemaNode, targets: seq<Path>, path: Path)
    requires ReplaceAll(node, targets).Some? && !Claimed(targets, path)
    ensures Agree(node, ReplaceAll(node, targets).value, path)
    ensures Unrelated(targets, path) ==> NodeAt(ReplaceAll(node, targets).value, path) == NodeAt(node, path)
    decreases |targets|
  {
    if targets != [] {
      var front, last := targets[..|targets| - 1], targets[|targets| - 1];
      assert forall i :: 0 <= i < |front| ==> front[i] == targets[i];
      ReplaceAllFrame(node, front, path);
      ReplaceFrame(ReplaceAll(node, front).value, last, path);
    }
  }

  /** Every target list that is apart and names string nodes has an output schema. */
  lemma {:induction false} ReplaceAllDefined(node: SchemaNode, targets: seq<Path>)
    requires Apart(targets) && forall i :: 0 <= i < |targets| ==> IsStringNode(NodeAt(node, targets[i]))
    ensures ReplaceAll(node, targets).Some?
    decreases |targets|
  {
    if targets != [] {
      var k := |targets| - 1;
      assert forall i :: 0 <= i < k ==> targets[..k][i] == targets[i];
      ReplaceAllDefined(node, targets[..k]);
      ReplaceAllFrame(node, targets[..k], targets[k]);
      ReplaceDefined(ReplaceAll(node, targets[..k]).value, targets[k]);
    }
  }

  // ---------------------------------------------------------------------------
  // Rows
  // ---------------------------------------------------------------------------

  /** What becomes of the value at a target; `None` is the error for anything but a string or null. */
  function Mask(key: Option<Seal>, at: ValuePath, v: Value): Option<Value> {
    if v.Null? then Some(v)
    else if v.Scalar? && v.scalar.String? then
      Some(if key.Some? then EnvelopeValue(key.value(at, v.scalar.text)) else Scalar(String(REDACTED)))
    else None
  }

  /** `transform_values_at_path` for the value found at `at`; `None` is its error. */
  function TransformAt(v: Value, target: Path, key: Option<Seal>, at: ValuePath): Option<Value>
    decreases |target|, 0
  {
    if target == [] then Mask(key, at, v)
    else
      match (v, target[0])
      case (Array(items), ArrayElement) =>
        var r := TransformItems(items, |items|, target[1..], key, at);
        if r.None? then None else Some(Array(r.value))
      case (Map(entries), MapValue) =>
        var r := TransformEntries(entries, |entries|, target[1..], key, at);
        if r.None? then None else Some(Map(r.value))
      case (Record(fields), Field(name)) =>
        var i := Find(EntryNames(fields), name);
        if i == |fields| then None
        else
          var r := TransformAt(fields[i].value, target[1..], key, at + [FieldNamed(name)]);
          if r.None? then None else Some(Record(fields[i := Entry(name, r.value)]))
      case (Custom(typeId, value), LogicalValue) =>
        var r := TransformAt(value, target[1..], key, at + [Logical]);
        if r.None? then None else Some(Custom(typeId, r.value))
      case _ => None
  }

  function TransformItems(
    items: seq<Value>, n: nat, target: Path, key: Option<Seal>, at: ValuePath): (r: Option<seq<Value>>)
    requires n <= |items|
    ensures r.Some? ==> |r.value| == n
    decreases |target|, 1 + n
  {
    if n == 0 then Some([])
    else
      var front := TransformItems(items, n - 1, target, key, at);
      var last := TransformAt(items[n - 1], target, key, at + [ArrayIndex(n - 1)]);
      if front.None? || last.None? then None else Some(front.value + [last.value])
  }

  function TransformEntries(
    entries: seq<Entry>, n: nat, target: Path, key: Option<Seal>, at: ValuePath): (r: Option<seq<Entry>>)
    requires n <= |entries|
    ensures r.Some? ==> |r.value| == n
    decreases |target|, 1 + n
  {
    if n == 0 then Some([])
    else
      var front := TransformEntries(entries, n - 1, target, key, at);
      var last := TransformAt(entries[n - 1].value, target, key, at + [MapKey(entries[n - 1].name)]);
      if front.None? || last.None? then None else Some(front.value + [Entry(entries[n - 1].name, last.value)])
  }

  /** The same walk as the loops of the source. */
  method TransformValues(v: Value, target: Path, key: Option<Seal>, at: ValuePath) returns (r: Option<Value>)
    ensures r == TransformAt(v, target, key, at)
    decreases |target|
  {
    if target == [] { return Mask(key, at, v); }
    match (v, target[0]) {
      case (Array(items), ArrayElement) =>
        var done: seq<Value> := [];
        for n := 0 to |items|
          invariant TransformItems(items, n, target[1..], key, at) == Some(done)
        {
          var item := TransformValues(items[n], target[1..], key, at + [ArrayIndex(n)]);
          if item.None? {
            ItemsExact(items, |items|, target[1..], key, at);
            return None;
          }
          done := done + [item.value];
        }
        r := Some(Array(done));
      case (Map(entries), MapValue) =>
        var done: seq<Entry> := [];
        for n := 0 to |entries|
          invariant TransformEntries(entries, n, target[1..], key, at) == Some(done)
        {
          var entry := TransformValues(entries[n].value, target[1..], key, at + [MapKey(entries[n].name)]);
          if entry.None? {
            EntriesExact(entries, |entries|, target[1..], key, at);
            return None;
          }
          done := done + [Entry(entries[n].name, entry.value)];
        }
        r := Some(Map(done));
      case (Record(fields), Field(name)) =>
        var i := Find(EntryNames(fields), name);
        if i == |fields| { return None; }
        var field := TransformValues(fields[i].value, target[1..], key, at + [FieldNamed(name)]);
        r := if field.None? then None else Some(Record(fields[i := Entry(name, field.value)]));
      case (Custom(typeId, value), LogicalValue) =>
        var inner := TransformValues(value, target[1..], key, at + [Logical]);
        r := if inner.None? then None else Some(Custom(typeId, inner.value));
      case _ => r := None;
    }
  }

  /** The items transform all or nothing, each at its own index. */
  lemma {:induction false} ItemsExact(items: seq<Value>, n: nat, target: Path, key: Option<Seal>, at: ValuePath)
    requires n <= |items|
    ensures var r := TransformItems(items, n, target, key, at);
            && (r.Some? <==> forall i :: 0 <= i < n ==> TransformAt(items[i], target, key, at + [ArrayIndex(i)]).Some?)
            && (r.Some? ==> forall i :: 0 <= i < n ==>
                  TransformAt(items[i], target, key, at + [ArrayIndex(i)]) == Some(r.value[i]))
    decreases n
  {
    if n > 0 { ItemsExact(items, n - 1, target, key, at); }
  }

  lemma {:induction false} EntriesExact(entries: seq<Entry>, n: nat, target: Path, key: Option<Seal>, at: ValuePath)
    requires n <= |entries|
    ensures var r := TransformEntries(entries, n, target, key, at);
            && (r.Some? <==>
                  forall i :: 0 <= i < n ==>
                    TransformAt(entries[i].value, target, key, at + [MapKey(entries[i].name)]).Some?)
            && (r.Some? ==> forall i :: 0 <= i < n ==>
                  && r.value[i].name == entries[i].name
                  && TransformAt(entries[i].value, target, key, at + [MapKey(entries[i].name)])
                     == Some(r.value[i].value))
    decreases n
  {
    if n > 0 { EntriesExact(entries, n - 1, target, key, at); }
  }
}
