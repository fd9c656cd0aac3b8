/** The envelope transform preserves typing, touches nothing but its targets, and fails only on null ancestors. */
module EnvelopeSoundness {
  import opened Prelude
  import opened Paths
  import opened Ir
  import opened SchemaChanges
  import opened Envelopes

  // ---------------------------------------------------------------------------
  // One target: the frame
  // ---------------------------------------------------------------------------

  datatype ValueHead =
    | NullValue | ScalarValue(scalar: Scalar) | DecimalValue(digits: string)
    | ArrayOf(length: nat) | MapOf(keys: seq<string>) | RecordOf(names: seq<string>) | CustomOf(typeId: string)

  /** What a value says about itself, its children apart. */
  function HeadOf(v: Value): ValueHead {
    match v
    case Null => NullValue
    case Scalar(s) => ScalarValue(s)
    case Decimal(digits) => DecimalValue(digits)
    case Array(items) => ArrayOf(|items|)
    case Map(entries) => MapOf(EntryNames(entries))
    case Record(fields) => RecordOf(EntryNames(fields))
    case Custom(typeId, _) => CustomOf(typeId)
  }

  /** Both rows have nothing at `path`, or values with the same head. */
  ghost predicate SameHeadAt(v: Value, r: Value, path: ValuePath) {
    var x, y := ValueAt(v, path), ValueAt(r, path);
    if x.Some? && y.Some? then HeadOf(x.value) == HeadOf(y.value) else x.None? && y.None?
  }

  /** One level of a transformation: head kept, the selected children transformed, the others kept. */
  lemma TransformLevel(v: Value, target: Path, key: Option<Seal>, at: ValuePath, step: Step)
    requires target != [] && TransformAt(v, target, key, at).Some?
    ensures HeadOf(TransformAt(v, target, key, at).value) == HeadOf(v)
    ensures var c := ValueChild(v, step);
            var c' := ValueChild(TransformAt(v, target, key, at).value, step);
            if c.Some? && Erase(step) == target[0] then
              c'.Some? && TransformAt(c.value, target[1..], key, at + [step]) == c'
            else c' == c
  {
    var r := TransformAt(v, target, key, at).value;
    match v
    case Array(items) => ItemsExact(items, |items|, target[1..], key, at);
    case Map(entries) =>
      EntriesExact(entries, |entries|, target[1..], key, at);
      assert EntryNames(r.entries) == EntryNames(entries);
    case Record(fields) => assert EntryNames(r.fields) == EntryNames(fields);
    case _ =>
  }

  lemma {:induction false} TransformFrame(v: Value, target: Path, key: Option<Seal>, at: ValuePath, path: ValuePath)
    requires TransformAt(v, target, key, at).Some? && !IsPrefix(target, ErasePath(path))
    ensures SameHeadAt(v, TransformAt(v, target, key, at).value, path)
    ensures !IsPrefix(ErasePath(path), target) ==>
              ValueAt(TransformAt(v, target, key, at).value, path) == ValueAt(v, path)
    decreases |target|
  {
    if path == [] {
      TransformLevel(v, target, key, at, Logical);
    } else {
      TransformLevel(v, target, key, at, path[0]);
      var c := ValueChild(v, path[0]);
      if c.Some? && Erase(path[0]) == target[0] {
        assert ErasePath(path)[1..] == ErasePath(path[1..]);
        TransformFrame(c.value, target[1..], key, at + [path[0]], path[1..]);
      }
    }
  }

  lemma {:induction false} TransformHit(v: Value, target: Path, key: Option<Seal>, at: ValuePath, path: ValuePath)
    requires TransformAt(v, target, key, at).Some? && ErasePath(path) == target
    ensures ValueAt(TransformAt(v, target, key, at).value, path)
            == if ValueAt(v, path).None? then None else Mask(key, at + path, ValueAt(v, path).value)
    decreases |target|
  {
    if path == [] {
      assert at + [] == at;
    } else {
      TransformLevel(v, target, key, at, path[0]);
      var c := ValueChild(v, path[0]);
      if c.Some? {
        assert ErasePath(path)[1..] == ErasePath(path[1..]);
        assert at + [path[0]] + path[1..] == at + path;
        TransformHit(c.value, target[1..], key, at + [path[0]], path[1..]);
      }
    }
  }

  // ---------------------------------------------------------------------------
  // One target: typing
  // ---------------------------------------------------------------------------

  function RetypedBy(node: SchemaNode, target: Path, key: Option<Seal>): Option<SchemaNode> {
    if key.Some? then ReplaceAt(node, target) else if IsStringNode(NodeAt(node, target)) then Some(node) else None
  }

  lemma EnvelopeMatches(s: SealedText, nullable: bool)
    ensures Matches(EnvelopeValue(s), EnvelopeNode(nullable))
  {
    var values, fields := EnvelopeValue(s).fields, EnvelopeNode(nullable).kind.fields;
    assert EntryNames(values) == FieldNames(fields);
  }

  lemma MaskMatches(v: Value, node: SchemaNode, key: Option<Seal>, at: ValuePath)
    requires Matches(v, node) && node.kind == ScalarKind(StringType)
    ensures Mask(key, at, v).Some?
    ensures Matches(Mask(key, at, v).value, if key.Some? then EnvelopeNode(node.nullable) else node)
  {
    if key.Some? && v.Scalar? { EnvelopeMatches(key.value(at, v.scalar.text), node.nullable); }
  }

  /** What a transformation returns matches the retyped schema. */
  lemma {:induction false} TransformMatches(v: Value, node: SchemaNode, target: Path, key: Option<Seal>, at: ValuePath)
    requires Matches(v, node) && IsStringNode(NodeAt(node, target)) && TransformAt(v, target, key, at).Some?
    ensures RetypedBy(node, target, key).Some?
    ensures Matches(TransformAt(v, target, key, at).value, RetypedBy(node, target, key).value)
    decreases |target|
  {
    ReplaceDefined(node, target);
    if target == [] {
      MaskMatches(v, node, key, at);
    } else {
      var rest := target[1..];
      var r := TransformAt(v, target, key, at).value;
      match v
      case Array(items) =>
        ItemsExact(items, |items|, rest, key, at);
        forall i | 0 <= i < |items| ensures Matches(r.items[i], RetypedBy(node.kind.items, rest, key).value) {
          TransformMatches(items[i], node.kind.items, rest, key, at + [ArrayIndex(i)]);
        }
      case Map(entries) =>
        EntriesExact(entries, |entries|, rest, key, at);
        forall i | 0 <= i < |entries|
          ensures Matches(r.entries[i].value, RetypedBy(node.kind.values, rest, key).value)
        {
          TransformMatches(entries[i].value, node.kind.values, rest, key, at + [MapKey(entries[i].name)]);
        }
      case Record(fields) => RecordMatches(v, node, target, key, at);
      case Custom(_, value) => TransformMatches(value, node.kind.value, rest, key, at + [Logical]);
      case _ =>
    }
  }

  lemma {:induction false} RecordMatches(v: Value, node: SchemaNode, target: Path, key: Option<Seal>, at: ValuePath)
    requires v.Record? && target != [] && Matches(v, node)
    requires IsStringNode(NodeAt(node, target)) && TransformAt(v, target, key, at).Some?
    ensures RetypedBy(node, target, key).Some?
    ensures Matches(TransformAt(v, target, key, at).value, RetypedBy(node, target, key).value)
    decreases |target|, 0
  {
    ReplaceDefined(node, target);
    var r, retyped := TransformAt(v, target, key, at).value, RetypedBy(node, target, key).value;
    var fields := node.kind.fields;
    var i := Find(FieldNames(fields), target[0].name);
    TransformMatches(v.fields[i].value, fields[i].schema, target[1..], key, at + [FieldNamed(target[0].name)]);
    assert EntryNames(r.fields) == EntryNames(v.fields) == FieldNames(fields) == FieldNames(retyped.kind.fields);
  }

  // ---------------------------------------------------------------------------
  // One target: well-formedness
  // ---------------------------------------------------------------------------

  /** A matching value is no deeper than its schema. */
  lemma {:induction false} DepthFromSchema(v: Value, node: SchemaNode, loose: int, depth: int)
    requires ValueWellFormed(v, loose) && Matches(v, node) && NodeValid(node, depth)
    ensures ValueWellFormed(v, depth)
    decreases v
  {
    match v
    case Array(items) =>
      forall i | 0 <= i < |items| ensures ValueWellFormed(items[i], depth - 1) {
        DepthFromSchema(items[i], node.kind.items, loose - 1, depth - 1);
      }
    case Map(entries) =>
      forall i | 0 <= i < |entries| ensures ValueWellFormed(entries[i].value, depth - 1) {
        DepthFromSchema(entries[i].value, node.kind.values, loose - 1, depth - 1);
      }
    case Record(fields) =>
      forall i | 0 <= i < |fields| ensures ValueWellFormed(fields[i].value, depth - 1) {
        DepthFromSchema(fields[i].value, node.kind.fields[i].schema, loose - 1, depth - 1);
      }
    case Custom(_, value) => DepthFromSchema(value, node.kind.value, loose - 1, depth - 1);
    case _ =>
  }

  lemma {:induction false} LooserDepth(v: Value, depth: int, loose: int)
    requires ValueWellFormed(v, depth) && depth <= loose
    ensures ValueWellFormed(v, loose)
    decreases v
  {
    match v
    case Array(items) =>
      forall i | 0 <= i < |items| ensures ValueWellFormed(items[i], loose - 1) {
        LooserDepth(items[i], depth - 1, loose - 1);
      }
    case Map(entries) =>
      forall i | 0 <= i < |entries| ensures ValueWellFormed(entries[i].value, loose - 1) {
        LooserDepth(entries[i].value, depth - 1, loose - 1);
      }
    case Record(fields) =>
      forall i | 0 <= i < |fields| ensures ValueWellFormed(fields[i].value, loose - 1) {
        LooserDepth(fields[i].value, depth - 1, loose - 1);
      }
    case Custom(_, value) => LooserDepth(value, depth - 1, loose - 1);
    case _ =>
  }

  /** An envelope adds one level at most, and everything else a validator asks for is kept. */
  lemma {:induction false} TransformWellFormed(v: Value, target: Path, key: Option<Seal>, at: ValuePath, depth: int)
    requires ValueWellFormed(v, depth) && TransformAt(v, target, key, at).Some?
    ensures ValueWellFormed(TransformAt(v, target, key, at).value, depth + 1)
    decreases |target|, 1
  {
    if target == [] {
    } else {
      match v
      case Array(_) => ArrayWellFormed(v, target, key, at, depth);
      case Map(_) => MapWellFormed(v, target, key, at, depth);
      case Record(_) => RecordWellFormed(v, target, key, at, depth);
      case Custom(_, value) => TransformWellFormed(value, target[1..], key, at + [Logical], depth - 1);
      case _ =>
    }
  }

  lemma {:induction false} ItemWellFormed(
    items: seq<Value>, target: Path, key: Option<Seal>, at: ValuePath, depth: int, i: nat)
    requires i < |items| && ValueWellFormed(items[i], depth) && TransformItems(items, |items|, target, key, at).Some?
    ensures ValueWellFormed(TransformItems(items, |items|, target, key, at).value[i], depth + 1)
    decreases |target|, 2
  {
    ItemsExact(items, |items|, target, key, at);
    TransformWellFormed(items[i], target, key, at + [ArrayIndex(i)], depth);
  }

  lemma {:induction false} ArrayWellFormed(v: Value, target: Path, key: Option<Seal>, at: ValuePath, depth: int)
    requires v.Array? && target != [] && ValueWellFormed(v, depth) && TransformAt(v, target, key, at).Some?
    ensures ValueWellFormed(TransformAt(v, target, key, at).value, depth + 1)
    decreases |target|, 0
  {
    var items := TransformItems(v.items, |v.items|, target[1..], key, at).value;
    forall i | 0 <= i < |items| ensures ValueWellFormed(items[i], depth) {
      ItemWellFormed(v.items, target[1..], key, at, depth - 1, i);
    }
    assert ValueWellFormed(Array(items), depth + 1);
  }

  lemma {:induction false} MapWellFormed(v: Value, target: Path, key: Option<Seal>, at: ValuePath, depth: int)
    requires v.Map? && target != [] && ValueWellFormed(v, depth) && TransformAt(v, target, key, at).Some?
    ensures ValueWellFormed(TransformAt(v, target, key, at).value, depth + 1)
    decreases |target|, 0
  {
    var entries := TransformEntries(v.entries, |v.entries|, target[1..], key, at).value;
    forall i | 0 <= i < |entries|
      ensures entries[i].name == v.entries[i].name && ValueWellFormed(entries[i].value, depth)
    {
      EntriesExact(v.entries, |v.entries|, target[1..], key, at);
      TransformWellFormed(v.entries[i].value, target[1..], key, at + [MapKey(v.entries[i].name)], depth - 1);
    }
    assert EntryNames(entries) == EntryNames(v.entries);
    assert ValueWellFormed(Map(entries), depth + 1);
  }

  lemma {:induction false} RecordWellFormed(v: Value, target: Path, key: Option<Seal>, at: ValuePath, depth: int)
    requires v.Record? && target != [] && ValueWellFormed(v, depth) && TransformAt(v, target, key, at).Some?
    ensures ValueWellFormed(TransformAt(v, target, key, at).value, depth + 1)
    decreases |target|, 0
  {
    var r := TransformAt(v, target, key, at).value;
    assert EntryNames(r.fields) == EntryNames(v.fields);
    forall i | 0 <= i < |v.fields| ensures ValueWellFormed(r.fields[i].value, depth) {
      if i == Find(EntryNames(v.fields), target[0].name) {
        TransformWellFormed(v.fields[i].value, target[1..], key, at + [FieldNamed(target[0].name)], depth - 1);
      } else {
        LooserDepth(v.fields[i].value, depth - 1, depth);
      }
    }
  }

  // ---------------------------------------------------------------------------
  // One target: failure
  // ---------------------------------------------------------------------------

  /** A strict ancestor of the target is null somewhere in the row. */
  ghost predicate NullAncestor(v: Value, target: Path) {
    exists path :: NullAt(v, target, path)
  }

  ghost predicate NullAt(v: Value, target: Path, path: ValuePath) {
    |path| < |target| && ErasePath(path) == target[..|path|] && ValueAt(v, path) == Some(Null)
  }

  lemma NullBelow(v: Value, target: Path, step: Step)
    requires target != [] && Erase(step) == target[0] && ValueChild(v, step).Some?
    requires NullAncestor(ValueChild(v, step).value, target[1..])
    ensures NullAncestor(v, target)
  {
    var below :| NullAt(ValueChild(v, step).value, target[1..], below);
    var path := [step] + below;
    assert path[1..] == below;
    assert ErasePath(path) == [target[0]] + ErasePath(below) == target[..|path|];
    assert NullAt(v, target, path);
  }

  /** On a matching row, a transformation that finds no null ancestor succeeds. */
  lemma {:induction false} NoNullSucceeds(
    v: Value, node: SchemaNode, target: Path, key: Option<Seal>, at: ValuePath, depth: int)
    requires ValueWellFormed(v, depth) && Matches(v, node) && IsStringNode(NodeAt(node, target))
    requires !NullAncestor(v, target)
    ensures TransformAt(v, target, key, at).Some?
    decreases |target|
  {
    if target == [] {
      MaskMatches(v, node, key, at);
    } else {
      if v.Null? { assert NullAt(v, target, []); }
      var rest := target[1..];
      match v
      case Array(items) =>
        forall i | 0 <= i < |items| ensures TransformAt(items[i], rest, key, at + [ArrayIndex(i)]).Some? {
          if NullAncestor(items[i], rest) { NullBelow(v, target, ArrayIndex(i)); }
          NoNullSucceeds(items[i], node.kind.items, rest, key, at + [ArrayIndex(i)], depth - 1);
        }
        ItemsExact(items, |items|, rest, key, at);
      case Map(entries) =>
        AscendingDistinct(EntryNames(entries));
        forall i | 0 <= i < |entries|
          ensures TransformAt(entries[i].value, rest, key, at + [MapKey(entries[i].name)]).Some?
        {
          if NullAncestor(entries[i].value, rest) { NullInMap(v, target, i); }
          NoNullSucceeds(entries[i].value, node.kind.values, rest, key, at + [MapKey(entries[i].name)], depth - 1);
        }
        EntriesExact(entries, |entries|, rest, key, at);
      case Record(fields) =>
        var i := Find(EntryNames(fields), target[0].name);
        if NullAncestor(fields[i].value, rest) { NullBelow(v, target, FieldNamed(target[0].name)); }
        NoNullSucceeds(fields[i].value, node.kind.fields[i].schema, rest, key,
                       at + [FieldNamed(target[0].name)], depth - 1);
      case Custom(_, value) =>
        if NullAncestor(value, rest) { NullBelow(v, target, Logical); }
        NoNullSucceeds(value, node.kind.value, rest, key, at + [Logical], depth - 1);
      case _ =>
    }
  }

  lemma NullInMap(v: Value, target: Path, i: nat)
    requires v.Map? && i < |v.entries| && Distinct(EntryNames(v.entries)) && target != [] && target[0] == MapValue
    requires NullAncestor(v.entries[i].value, target[1..])
    ensures NullAncestor(v, target)
  {
    NullBelow(v, target, MapKey(v.entries[i].name));
  }

  /** A transformation that succeeds has met no null ancestor. */
  lemma {:induction false} SuccessMeetsNoNull(v: Value, target: Path, key: Option<Seal>, at: ValuePath, path: ValuePath)
    requires TransformAt(v, target, key, at).Some?
    ensures !NullAt(v, target, path)
    decreases |target|
  {
    if NullAt(v, target, path) && path != [] {
      assert ErasePath(path)[0] == target[0];
      TransformLevel(v, target, key, at, path[0]);
      assert ErasePath(path)[1..] == ErasePath(path[1..]);
      assert target[..|path|][1..] == target[1..][..|path| - 1];
      SuccessMeetsNoNull(ValueChild(v, path[0]).value, target[1..], key, at + [path[0]], path[1..]);
    }
  }

  // ---------------------------------------------------------------------------
  // All targets
  // ---------------------------------------------------------------------------

  /** `EnvelopeBinaryTransform::transform`: the targets one after another, each checked in the input schema. */
  function TransformAll(v: Value, schema: SchemaNode, targets: seq<Path>, key: Option<Seal>): Option<Value> {
    if targets == [] then Some(v)
    else
      var last := targets[|targets| - 1];
      var r := TransformAll(v, schema, targets[..|targets| - 1], key);
      if r.None? || !IsStringNode(NodeAt(schema, last)) then None else TransformAt(r.value, last, key, [])
  }

  /** `output_schema`: unchanged without a key. */
  function OutputSchema(schema: SchemaNode, targets: seq<Path>, key: Option<Seal>): Option<SchemaNode> {
    if key.None? then Some(schema) else ReplaceAll(schema, targets)
  }

  /** Outside the targets heads are kept, and off their ancestors whole values. */
  lemma {:induction false} TransformAllFrame(
    v: Value, schema: SchemaNode, targets: seq<Path>, key: Option<Seal>, path: ValuePath)
    requires TransformAll(v, schema, targets, key).Some? && !Claimed(targets, ErasePath(path))
    ensures SameHeadAt(v, TransformAll(v, schema, targets, key).value, path)
    ensures Unrelated(targets, ErasePath(path)) ==>
              ValueAt(TransformAll(v, schema, targets, key).value, path) == ValueAt(v, path)
    decreases |targets|
  {
    if targets != [] {
      var front, last := targets[..|targets| - 1], targets[|targets| - 1];
      assert forall i :: 0 <= i < |front| ==> front[i] == targets[i];
      TransformAllFrame(v, schema, front, key, path);
      TransformFrame(TransformAll(v, schema, front, key).value, last, key, [], path);
    }
  }

  /** Among targets that are apart, the last is unrelated to those before it. */
  lemma ApartSplits(targets: seq<Path>, n: nat)
    requires Apart(targets) && n + 1 == |targets|
    ensures Apart(targets[..n]) && Unrelated(targets[..n], targets[n]) && !Claimed(targets[..n], targets[n])
    ensures forall k :: 0 <= k < n ==> targets[..n][k] == targets[k]
  {
  }

  /** At its own target a transformation does what `Mask` says; elsewhere it keeps the value. */
  lemma LastStep(v: Value, target: Path, key: Option<Seal>, path: ValuePath, other: Path)
    requires TransformAt(v, target, key, []).Some? && ErasePath(path) == other
    requires other == target || (!IsPrefix(target, other) && !IsPrefix(other, target))
    ensures ValueAt(TransformAt(v, target, key, []).value, path)
            == if other != target || ValueAt(v, path).None? then ValueAt(v, path)
               else Mask(key, path, ValueAt(v, path).value)
  {
    if other == target {
      TransformHit(v, target, key, [], path);
      assert [] + path == path;
    } else {
      TransformFrame(v, target, key, [], path);
    }
  }

  /** At a target every value becomes what `Mask` says, whichever other targets there are. */
  lemma {:induction false} TransformAllHit(
    v: Value, schema: SchemaNode, targets: seq<Path>, key: Option<Seal>, k: nat, path: ValuePath)
    requires Apart(targets) && k < |targets| && ErasePath(path) == targets[k]
    requires TransformAll(v, schema, targets, key).Some?
    ensures ValueAt(TransformAll(v, schema, targets, key).value, path)
            == if ValueAt(v, path).None? then None else Mask(key, path, ValueAt(v, path).value)
    decreases |targets|
  {
    var n := |targets| - 1;
    var front := targets[..n];
    ApartSplits(targets, n);
    LastStep(TransformAll(v, schema, front, key).value, targets[n], key, path, targets[k]);
    if k == n {
      TransformAllFrame(v, schema, front, key, path);
    } else {
      TransformAllHit(v, schema, front, key, k, path);
    }
  }

  lemma {:induction false} TransformAllWellFormed(
    v: Value, schema: SchemaNode, targets: seq<Path>, key: Option<Seal>, depth: int)
    requires ValueWellFormed(v, depth) && TransformAll(v, schema, targets, key).Some?
    ensures ValueWellFormed(TransformAll(v, schema, targets, key).value, depth + |targets|)
    decreases |targets|
  {
    if targets != [] {
      var n := |targets| - 1;
      TransformAllWellFormed(v, schema, targets[..n], key, depth);
      TransformWellFormed(TransformAll(v, schema, targets[..n], key).value, targets[n], key, [], depth + n);
    }
  }

  /** After any number of targets, the row matches the schema retyped by the same targets. */
  lemma {:induction false} TransformAllMatches(v: Value, schema: SchemaNode, targets: seq<Path>, key: Option<Seal>)
    requires Matches(v, schema) && Apart(targets) && TransformAll(v, schema, targets, key).Some?
    ensures OutputSchema(schema, targets, key).Some?
    ensures Matches(TransformAll(v, schema, targets, key).value, OutputSchema(schema, targets, key).value)
    decreases |targets|
  {
    if targets != [] {
      var n := |targets| - 1;
      var front, last := targets[..n], targets[n];
      ApartSplits(targets, n);
      TransformAllMatches(v, schema, front, key);
      var sofar := OutputSchema(schema, front, key).value;
      StillString(schema, targets, key, n);
      TransformMatches(TransformAll(v, schema, front, key).value, sofar, last, key, []);
      assert OutputSchema(schema, targets, key) == RetypedBy(sofar, last, key);
    }
  }

  /** Earlier targets leave a later one the string node it was. */
  lemma StillString(schema: SchemaNode, targets: seq<Path>, key: Option<Seal>, k: nat)
    requires Apart(targets) && k < |targets| && IsStringNode(NodeAt(schema, targets[k]))
    requires OutputSchema(schema, targets[..k], key).Some?
    ensures IsStringNode(NodeAt(OutputSchema(schema, targets[..k], key).value, targets[k]))
  {
    if key.Some? { ReplaceAllFrame(schema, targets[..k], targets[k]); }
  }

  /**
   Type soundness: on every valid row, for targets that are apart, whatever the transform returns
   is valid for the declared output schema, its nesting limit included.
   */
  lemma EnvelopeTypeSound(v: Value, schema: SchemaNode, targets: seq<Path>, key: Option<Seal>, limits: Limits)
    requires ValueValid(v, schema, limits) && Apart(targets)
    requires OutputSchema(schema, targets, key).Some? && SchemaValid(OutputSchema(schema, targets, key).value, limits)
    requires TransformAll(v, schema, targets, key).Some?
    ensures ValueValid(TransformAll(v, schema, targets, key).value, OutputSchema(schema, targets, key).value, limits)
  {
    var depth := limits.maxNestingDepth;
    TransformAllMatches(v, schema, targets, key);
    TransformAllWellFormed(v, schema, targets, key, depth);
    DepthFromSchema(TransformAll(v, schema, targets, key).value, OutputSchema(schema, targets, key).value,
                    depth + |targets|, depth);
  }

  lemma PrefixOfPrefix(a: Path, b: Path, c: Path)
    requires IsPrefix(a, b) && IsPrefix(b, c)
    ensures IsPrefix(a, c)
  {
    assert c[..|a|] == c[..|b|][..|a|];
  }

  lemma NullSurvives(v: Value, schema: SchemaNode, targets: seq<Path>, key: Option<Seal>, target: Path, path: ValuePath)
    requires TransformAll(v, schema, targets, key).Some? && Unrelated(targets, target)
    ensures NullAt(v, target, path) <==> NullAt(TransformAll(v, schema, targets, key).value, target, path)
  {
    var erased := ErasePath(path);
    if |path| < |target| && erased == target[..|path|] {
      forall i | 0 <= i < |targets| ensures !IsPrefix(targets[i], erased) {
        if IsPrefix(targets[i], erased) { PrefixOfPrefix(targets[i], erased, target); }
      }
      TransformAllFrame(v, schema, targets, key, path);
    }
  }

  /** The transform fails on a valid row exactly when a strict ancestor of some target is null there. */
  lemma {:induction false} EnvelopeFailsExactly(
    v: Value, schema: SchemaNode, targets: seq<Path>, key: Option<Seal>, depth: int)
    requires Matches(v, schema) && ValueWellFormed(v, depth) && Apart(targets)
    requires forall i :: 0 <= i < |targets| ==> IsStringNode(NodeAt(schema, targets[i]))
    ensures TransformAll(v, schema, targets, key).None?
            <==> exists i :: 0 <= i < |targets| && NullAncestor(v, targets[i])
    decreases |targets|
  {
    if targets != [] {
      var n := |targets| - 1;
      var front := targets[..n];
      ApartSplits(targets, n);
      EnvelopeFailsExactly(v, schema, front, key, depth);
      var before := TransformAll(v, schema, front, key);
      if before.Some? {
        LastTargetFailsExactly(v, schema, targets, key, depth);
      } else {
        var i :| 0 <= i < n && NullAncestor(v, front[i]);
        assert NullAncestor(v, targets[i]);
      }
    }
  }

  lemma NullAncestorSurvives(v: Value, schema: SchemaNode, targets: seq<Path>, key: Option<Seal>, target: Path)
    requires TransformAll(v, schema, targets, key).Some? && Unrelated(targets, target)
    ensures NullAncestor(v, target) <==> NullAncestor(TransformAll(v, schema, targets, key).value, target)
  {
    var after := TransformAll(v, schema, targets, key).value;
    forall path ensures NullAt(v, target, path) <==> NullAt(after, target, path) {
      NullSurvives(v, schema, targets, key, target, path);
    }
  }

  /** One transformation fails exactly below a null. */
  lemma FailsBelowNull(v: Value, node: SchemaNode, target: Path, key: Option<Seal>, depth: int)
    requires Matches(v, node) && ValueWellFormed(v, depth) && IsStringNode(NodeAt(node, target))
    ensures TransformAt(v, target, key, []).None? <==> NullAncestor(v, target)
  {
    if TransformAt(v, target, key, []).Some? {
      forall path ensures !NullAt(v, target, path) { SuccessMeetsNoNull(v, target, key, [], path); }
    } else if !NullAncestor(v, target) {
      NoNullSucceeds(v, node, target, key, [], depth);
    }
  }

  /** What the last target meets: a row of the schema so far, in which it still names a string. */
  lemma BeforeLast(v: Value, schema: SchemaNode, targets: seq<Path>, key: Option<Seal>, n: nat, depth: int)
    returns (before: Value, sofar: SchemaNode, deeper: int)
    requires Matches(v, schema) && ValueWellFormed(v, depth) && Apart(targets) && n + 1 == |targets|
    requires IsStringNode(NodeAt(schema, targets[n])) && TransformAll(v, schema, targets[..n], key).Some?
    ensures TransformAll(v, schema, targets[..n], key) == Some(before)
    ensures TransformAll(v, schema, targets, key) == TransformAt(before, targets[n], key, [])
    ensures Matches(before, sofar) && ValueWellFormed(before, deeper) && IsStringNode(NodeAt(sofar, targets[n]))
    ensures NullAncestor(v, targets[n]) <==> NullAncestor(before, targets[n])
  {
    var front := targets[..n];
    ApartSplits(targets, n);
    TransformAllMatches(v, schema, front, key);
    TransformAllWellFormed(v, schema, front, key, depth);
    StillString(schema, targets, key, n);
    NullAncestorSurvives(v, schema, front, key, targets[n]);
    before, sofar := TransformAll(v, schema, front, key).value, OutputSchema(schema, front, key).value;
    deeper := depth + |front|;
  }

  lemma LastTargetFailsExactly(v: Value, schema: SchemaNode, targets: seq<Path>, key: Option<Seal>, depth: int)
    requires Matches(v, schema) && ValueWellFormed(v, depth) && Apart(targets) && targets != []
    requires IsStringNode(NodeAt(schema, targets[|targets| - 1]))
    requires TransformAll(v, schema, targets[..|targets| - 1], key).Some?
    ensures TransformAll(v, schema, targets, key).None? <==> NullAncestor(v, targets[|targets| - 1])
  {
    var n := |targets| - 1;
    var before, sofar, deeper := BeforeLast(v, schema, targets, key, n, depth);
    FailsBelowNull(before, sofar, targets[n], key, deeper);
  }

  /** Such rows exist: a null record above a string target is valid for its schema, and refused with any key. */
  lemma NullRecordFails(key: Option<Seal>, limits: Limits, outer: string, inner: string)
    returns (schema: SchemaNode, v: Value, targets: seq<Path>)
    requires limits.maxNestingDepth >= 2 && limits.maxFields >= 2 && outer != [] && inner != []
    ensures ValueValid(v, schema, limits) && Apart(targets) && OutputSchema(schema, targets, key).Some?
    ensures TransformAll(v, schema, targets, key).None?
  {
    var text := SchemaNode(false, ScalarKind(StringType));
    var contact := SchemaNode(true, RecordKind([SchemaField(inner, text)]));
    schema := SchemaNode(false, RecordKind([SchemaField(outer, contact)]));
    v := Record([Entry(outer, Null)]);
    targets := [[Field(outer), Field(inner)]];
    OneField(inner, text, true, 1);
    OneField(outer, contact, false, 2);
    assert EntryNames(v.fields) == [outer] == FieldNames(schema.kind.fields);
    assert IsStringNode(NodeAt(schema, targets[0])) by {
      assert targets[0][1..] == [Field(inner)] && NodeAt(contact, [Field(inner)]) == Some(text);
    }
    ReplaceDefined(schema, targets[0]);
    assert targets[..0] == [];
    assert ReplaceAll(schema, targets[..0]) == Some(schema);
    assert TransformAt(v, targets[0], key, []).None?;
  }

  lemma OneField(name: string, schema: SchemaNode, nullable: bool, depth: int)
    requires name != [] && NodeValid(schema, depth - 1) && depth >= 1
    ensures var fields := [SchemaField(name, schema)];
            && FieldNames(fields) == [name] && Distinct([name]) && FieldCounts(fields) == FieldCount(schema)
            && Find([name], name) == 0
            && NodeValid(SchemaNode(nullable, RecordKind(fields)), depth)
  {
    var fields := [SchemaField(name, schema)];
    assert fields[..0] == [];
  }
}
