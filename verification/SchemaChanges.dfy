/** Where two schemas agree, and the checks that keep a guest's changes inside its claims. */
module SchemaChanges {
  import opened Paths
  import opened Ir

  // ---------------------------------------------------------------------------
  // Agreement, path by path
  // ---------------------------------------------------------------------------

  datatype Head =
    | ScalarHead(scalar: ScalarType) | DecimalHead(precision: nat, scale: nat)
    | ArrayHead | MapHead | RecordHead(names: seq<string>) | CustomHead(typeId: string)

  /** What a node says about itself: nullability, kind, field names, type id, precision. */
  datatype Shape = Shape(nullable: bool, head: Head)

  function ShapeOf(node: SchemaNode): Shape {
    Shape(node.nullable,
          match node.kind
          case ScalarKind(t) => ScalarHead(t)
          case DecimalKind(p, s) => DecimalHead(p, s)
          case ArrayKind(_) => ArrayHead
          case MapKind(_) => MapHead
          case RecordKind(fields) => RecordHead(FieldNames(fields))
          case CustomKind(typeId, _) => CustomHead(typeId))
  }

  /** Both schemas have nothing at `path`, or nodes of the same shape. */
  ghost predicate Agree(a: SchemaNode, b: SchemaNode, path: Path) {
    var x, y := NodeAt(a, path), NodeAt(b, path);
    if x.Some? && y.Some? then ShapeOf(x.value) == ShapeOf(y.value) else x.None? && y.None?
  }

  // ---------------------------------------------------------------------------
  // The change checker
  // ---------------------------------------------------------------------------

  /** Some claim covers `path`. */
  predicate Claimed(claims: seq<Path>, path: Path) {
    exists i :: 0 <= i < |claims| && IsPrefix(claims[i], path)
  }

  lemma ClaimedBelow(claims: seq<Path>, path: Path, longer: Path)
    requires Claimed(claims, path) && IsPrefix(path, longer)
    ensures Claimed(claims, longer)
  {
    var i :| 0 <= i < |claims| && IsPrefix(claims[i], path);
    assert longer[..|claims[i]|] == longer[..|path|][..|claims[i]|];
  }

  /** `ensure_node_changes_are_claimed`: whether every change from `source` lies inside a claim. */
  predicate ChangesClaimed(source: SchemaNode, transformed: SchemaNode, claims: seq<Path>, path: Path)
    decreases source
  {
    if Claimed(claims, path) then true
    else if source.nullable != transformed.nullable then false
    else
      match (source.kind, transformed.kind)
      case (ArrayKind(a), ArrayKind(b)) => ChangesClaimed(a, b, claims, path + [ArrayElement])
      case (MapKind(a), MapKind(b)) => ChangesClaimed(a, b, claims, path + [MapValue])
      case (RecordKind(a), RecordKind(b)) =>
        && |a| == |b|
        && forall i :: 0 <= i < |a| ==>
             a[i].name == b[i].name && ChangesClaimed(a[i].schema, b[i].schema, claims, path + [Field(a[i].name)])
      case (CustomKind(s, a), CustomKind(t, b)) =>
        if s == t then ChangesClaimed(a, b, claims, path + [LogicalValue]) else source == transformed
      case _ => source == transformed
  }

  /** What the checker accepts agrees everywhere outside the claims. */
  lemma {:induction false} AcceptedAgrees(
    source: SchemaNode, transformed: SchemaNode, claims: seq<Path>, base: Path, below: Path)
    requires ChangesClaimed(source, transformed, claims, base) && !Claimed(claims, base + below)
    ensures Agree(source, transformed, below)
    decreases |below|
  {
    if Claimed(claims, base) {
      assert (base + below)[..|base|] == base;
      ClaimedBelow(claims, base, base + below);
    } else {
      AcceptedShape(source, transformed, claims, base);
      if below != [] {
        var segment := below[0];
        if Child(source, segment).Some? && Child(transformed, segment).Some? {
          assert base + [segment] + below[1..] == base + below;
          AcceptedAgrees(Child(source, segment).value, Child(transformed, segment).value, claims,
                         base + [segment], below[1..]);
        }
        assert below == [segment] + below[1..];
      }
    }
  }

  lemma AcceptedShape(source: SchemaNode, transformed: SchemaNode, claims: seq<Path>, base: Path)
    requires ChangesClaimed(source, transformed, claims, base) && !Claimed(claims, base)
    ensures ShapeOf(source) == ShapeOf(transformed)
  {
    if source.kind.RecordKind? && transformed.kind.RecordKind? {
      assert FieldNames(source.kind.fields) == FieldNames(transformed.kind.fields);
    }
  }

  ghost predicate AgreeOutside(source: SchemaNode, transformed: SchemaNode, claims: seq<Path>, base: Path) {
    forall below {:trigger Agree(source, transformed, below)} ::
      !Claimed(claims, base + below) ==> Agree(source, transformed, below)
  }

  lemma AgreeOutsideChild(
    source: SchemaNode, transformed: SchemaNode, claims: seq<Path>, base: Path, segment: Segment)
    requires AgreeOutside(source, transformed, claims, base)
    requires Child(source, segment).Some? && Child(transformed, segment).Some?
    ensures AgreeOutside(Child(source, segment).value, Child(transformed, segment).value, claims, base + [segment])
  {
    var a, b := Child(source, segment).value, Child(transformed, segment).value;
    forall below | !Claimed(claims, base + [segment] + below) ensures Agree(a, b, below) {
      var longer := [segment] + below;
      assert base + [segment] + below == base + longer;
      assert Agree(source, transformed, longer);
      assert longer[1..] == below;
    }
  }

  /** Schemas that agree everywhere outside the claims are accepted. */
  lemma {:induction false} AgreementAccepted(
    source: SchemaNode, transformed: SchemaNode, claims: seq<Path>, base: Path, depth: int)
    requires NodeValid(source, depth) && AgreeOutside(source, transformed, claims, base)
    ensures ChangesClaimed(source, transformed, claims, base)
    decreases source
  {
    assert base + [] == base;
    if !Claimed(claims, base) {
      assert Agree(source, transformed, []);
      match source.kind
      case ScalarKind(_) =>
      case DecimalKind(_, _) =>
      case ArrayKind(items) =>
        AgreeOutsideChild(source, transformed, claims, base, ArrayElement);
        AgreementAccepted(items, transformed.kind.items, claims, base + [ArrayElement], depth - 1);
      case MapKind(values) =>
        AgreeOutsideChild(source, transformed, claims, base, MapValue);
        AgreementAccepted(values, transformed.kind.values, claims, base + [MapValue], depth - 1);
      case CustomKind(_, value) =>
        AgreeOutsideChild(source, transformed, claims, base, LogicalValue);
        AgreementAccepted(value, transformed.kind.value, claims, base + [LogicalValue], depth - 1);
      case RecordKind(fields) =>
        forall i | 0 <= i < |fields|
          ensures fields[i].name == transformed.kind.fields[i].name
          ensures ChangesClaimed(fields[i].schema, transformed.kind.fields[i].schema, claims,
                                 base + [Field(fields[i].name)])
        {
          assert FieldNames(fields)[i] == FieldNames(transformed.kind.fields)[i];
          AgreeOutsideChild(source, transformed, claims, base, Field(fields[i].name));
          AgreementAccepted(fields[i].schema, transformed.kind.fields[i].schema, claims,
                            base + [Field(fields[i].name)], depth - 1);
        }
    }
  }

  /** The change checker accepts exactly the schema pairs that agree outside the claims. */
  lemma CheckerExact(source: SchemaNode, transformed: SchemaNode, claims: seq<Path>, depth: int)
    requires NodeValid(source, depth)
    ensures ChangesClaimed(source, transformed, claims, [])
            <==> forall path :: !Claimed(claims, path) ==> Agree(source, transformed, path)
  {
    if ChangesClaimed(source, transformed, claims, []) {
      forall path | !Claimed(claims, path) ensures Agree(source, transformed, path) {
        assert [] + path == path;
        AcceptedAgrees(source, transformed, claims, [], path);
      }
    }
    if forall path :: !Claimed(claims, path) ==> Agree(source, transformed, path) {
      forall below | !Claimed(claims, [] + below) ensures Agree(source, transformed, below) {
        assert [] + below == below;
      }
      AgreementAccepted(source, transformed, claims, [], depth);
    }
  }

  // ---------------------------------------------------------------------------
  // Custom nodes
  // ---------------------------------------------------------------------------

  /** `reject_unclaimed_custom_nodes`, the walk over every node below `path`. */
  predicate CustomsClaimed(node: SchemaNode, claims: seq<Path>, path: Path)
    decreases node
  {
    && (node.kind.CustomKind? ==> Claimed(claims, path))
    && match node.kind
       case ArrayKind(items) => CustomsClaimed(items, claims, path + [ArrayElement])
       case MapKind(values) => CustomsClaimed(values, claims, path + [MapValue])
       case RecordKind(fields) =>
         forall i :: 0 <= i < |fields| ==> CustomsClaimed(fields[i].schema, claims, path + [Field(fields[i].name)])
       case CustomKind(_, value) => CustomsClaimed(value, claims, path + [LogicalValue])
       case _ => true
  }

  ghost predicate CustomAt(node: SchemaNode, path: Path) {
    NodeAt(node, path).Some? && NodeAt(node, path).value.kind.CustomKind?
  }

  lemma {:induction false} WalkFindsCustoms(node: SchemaNode, claims: seq<Path>, base: Path, below: Path)
    requires CustomsClaimed(node, claims, base) && CustomAt(node, below)
    ensures Claimed(claims, base + below)
    decreases |below|
  {
    if below == [] {
      assert base + [] == base;
    } else {
      assert base + [below[0]] + below[1..] == base + below;
      WalkFindsCustoms(Child(node, below[0]).value, claims, base + [below[0]], below[1..]);
    }
  }

  lemma {:induction false} WalkAccepts(node: SchemaNode, claims: seq<Path>, base: Path, depth: int)
    requires NodeValid(node, depth)
    requires forall below :: CustomAt(node, below) ==> Claimed(claims, base + below)
    ensures CustomsClaimed(node, claims, base)
    decreases node
  {
    assert base + [] == base;
    if node.kind.CustomKind? { assert CustomAt(node, []); }
    match node.kind
    case ArrayKind(items) => WalkAcceptsChild(node, claims, base, ArrayElement, depth);
    case MapKind(values) => WalkAcceptsChild(node, claims, base, MapValue, depth);
    case CustomKind(_, value) => WalkAcceptsChild(node, claims, base, LogicalValue, depth);
    case RecordKind(fields) =>
      forall i | 0 <= i < |fields| ensures CustomsClaimed(fields[i].schema, claims, base + [Field(fields[i].name)]) {
        WalkAcceptsChild(node, claims, base, Field(fields[i].name), depth);
      }
    case _ =>
  }

  lemma WalkAcceptsChild(node: SchemaNode, claims: seq<Path>, base: Path, segment: Segment, depth: int)
    requires NodeValid(node, depth) && Child(node, segment).Some?
    requires forall below :: CustomAt(node, below) ==> Claimed(claims, base + below)
    ensures CustomsClaimed(Child(node, segment).value, claims, base + [segment])
    decreases node, 0
  {
    var child := Child(node, segment).value;
    forall below | CustomAt(child, below) ensures Claimed(claims, base + [segment] + below) {
      var longer := [segment] + below;
      assert longer[1..] == below;
      assert CustomAt(node, longer);
      assert base + [segment] + below == base + longer;
    }
    WalkAccepts(child, claims, base + [segment], depth - 1);
  }

  /** The walk accepts exactly the schemas whose custom nodes are all claimed. */
  lemma CustomWalkExact(node: SchemaNode, claims: seq<Path>, depth: int)
    requires NodeValid(node, depth)
    ensures CustomsClaimed(node, claims, []) <==> forall path :: CustomAt(node, path) ==> Claimed(claims, path)
  {
    if CustomsClaimed(node, claims, []) {
      forall path | CustomAt(node, path) ensures Claimed(claims, path) {
        assert [] + path == path;
        WalkFindsCustoms(node, claims, [], path);
      }
    }
    if forall path :: CustomAt(node, path) ==> Claimed(claims, path) {
      forall below | CustomAt(node, below) ensures Claimed(claims, [] + below) {
        assert [] + below == below;
      }
      WalkAccepts(node, claims, [], depth);
    }
  }
}
