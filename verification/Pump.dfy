/** The binary pump: schemas are frozen by `Plan`, then every row goes reduce, transform, restore. */
module Pump {
  import opened Prelude
  import opened Paths
  import opened Ir
  import opened SchemaChanges
  import opened Envelopes
  import opened EnvelopeSoundness

  /** The built-in identity reductor, or a guest component whose answers are arbitrary. */
  datatype Reductor = Common | Guest

  datatype GuestPlan = GuestPlan(claims: seq<Claim>, reduced: SchemaNode)

  datatype Plans = Plans(
    source: SchemaNode, claims: seq<Claim>, reduced: SchemaNode, transformed: SchemaNode, output: SchemaNode)

  datatype ProcessError =
    | NotPlanned | InvalidSource | ReduceFailed | TransformFailed | InvalidTransformed | RestoreFailed

  // ---------------------------------------------------------------------------
  // Claims against the source schema
  // ---------------------------------------------------------------------------

  /** A claim names a custom node of its own type, or a record. */
  predicate ClaimFits(source: SchemaNode, claim: Claim) {
    var node := NodeAt(source, claim.path);
    && node.Some?
    && (node.value.kind.RecordKind? || (node.value.kind.CustomKind? && node.value.kind.typeId == claim.typeId))
  }

  ghost predicate ClaimsFit(source: SchemaNode, claims: seq<Claim>) {
    forall i :: 0 <= i < |claims| ==> ClaimFits(source, claims[i])
  }

  /** `validate_claims_against_schema`. */
  method ValidateClaims(source: SchemaNode, claims: seq<Claim>) returns (ok: bool)
    ensures ok <==> ClaimsFit(source, claims)
  {
    for i := 0 to |claims|
      invariant forall k :: 0 <= k < i ==> ClaimFits(source, claims[k])
    {
      var node := FindNode(source, claims[i].path);
      if node.None? { return false; }
      match node.value.kind {
        case CustomKind(typeId, _) => if typeId != claims[i].typeId { return false; }
        case RecordKind(_) =>
        case _ => return false;
      }
    }
    ok := true;
  }

  /** The order of claims is of no account to the checks that use them. */
  lemma SameClaims(a: seq<Claim>, b: seq<Claim>, source: SchemaNode, path: Path)
    requires multiset(a) == multiset(b)
    ensures Claimed(PathsOf(a), path) ==> Claimed(PathsOf(b), path)
    ensures ClaimsFit(source, a) ==> ClaimsFit(source, b)
  {
    if Claimed(PathsOf(a), path) {
      var i :| 0 <= i < |a| && IsPrefix(PathsOf(a)[i], path);
      assert a[i] in multiset(b);
      var j :| 0 <= j < |b| && b[j] == a[i];
      assert PathsOf(b)[j] == PathsOf(a)[i];
    }
    if ClaimsFit(source, a) {
      forall j | 0 <= j < |b| ensures ClaimFits(source, b[j]) {
        assert b[j] in multiset(a);
      }
    }
  }

  // ---------------------------------------------------------------------------
  // Frozen plans
  // ---------------------------------------------------------------------------

  /** Two schemas agree at every path no claim covers. */
  ghost predicate AgreeOffClaims(a: SchemaNode, b: SchemaNode, claims: seq<Claim>) {
    forall path :: !Claimed(PathsOf(claims), path) ==> Agree(a, b, path)
  }

  /** What planning demands, of a guest's answers and of the transform's targets. */
  ghost predicate PlansSound(p: Plans, targets: seq<Path>, key: Option<Seal>, limits: Limits) {
    && SchemaValid(p.source, limits) && PrefixFree(p.claims) && ClaimsFit(p.source, p.claims)
    && SchemaValid(p.reduced, limits) && AgreeOffClaims(p.source, p.reduced, p.claims)
    && OutputSchema(p.reduced, targets, key) == Some(p.transformed) && SchemaValid(p.transformed, limits)
    && SchemaValid(p.output, limits) && AgreeOffClaims(p.transformed, p.output, p.claims)
  }

  /** Outside the claims and the targets the output schema is the source schema. */
  lemma OutputFrame(p: Plans, targets: seq<Path>, key: Option<Seal>, limits: Limits, path: Path)
    requires PlansSound(p, targets, key, limits)
    requires !Claimed(PathsOf(p.claims), path) && (key.Some? ==> !Claimed(targets, path))
    ensures Agree(p.source, p.output, path)
  {
    if key.Some? { ReplaceAllFrame(p.reduced, targets, path); }
  }

  /** An unclaimed target was a string in the source and is an envelope record in the output. */
  lemma OutputHit(p: Plans, targets: seq<Path>, key: Option<Seal>, limits: Limits, k: nat)
    requires PlansSound(p, targets, key, limits) && Apart(targets) && key.Some?
    requires k < |targets| && !Claimed(PathsOf(p.claims), targets[k])
    ensures IsStringNode(NodeAt(p.source, targets[k])) && NodeAt(p.output, targets[k]).Some?
    ensures ShapeOf(NodeAt(p.output, targets[k]).value)
            == ShapeOf(EnvelopeNode(NodeAt(p.source, targets[k]).value.nullable))
  {
    assert Agree(p.source, p.reduced, targets[k]) && Agree(p.transformed, p.output, targets[k]);
    ReplaceAllHit(p.reduced, targets, k);
  }

  /** Each target is retyped where it stands, whichever other targets there are. */
  lemma {:induction false} ReplaceAllHit(node: SchemaNode, targets: seq<Path>, k: nat)
    requires Apart(targets) && k < |targets| && ReplaceAll(node, targets).Some?
    ensures IsStringNode(NodeAt(node, targets[k]))
    ensures NodeAt(ReplaceAll(node, targets).value, targets[k])
            == Some(EnvelopeNode(NodeAt(node, targets[k]).value.nullable))
    decreases |targets|
  {
    var n := |targets| - 1;
    var front := targets[..n];
    assert forall i :: 0 <= i < n ==> front[i] == targets[i];
    var before := ReplaceAll(node, front).value;
    if k == n {
      ReplaceAllFrame(node, front, targets[n]);
      ReplaceDefined(before, targets[n]);
      ReplaceHit(before, targets[n]);
    } else {
      ReplaceAllHit(node, front, k);
      ReplaceFrame(before, targets[n], targets[k]);
    }
  }

  /** With targets that are apart, the transform has an output schema exactly when they all name strings. */
  lemma OutputSchemaDefined(node: SchemaNode, targets: seq<Path>, key: Option<Seal>)
    requires Apart(targets)
    ensures OutputSchema(node, targets, key).Some?
            <==> (key.Some? ==> forall i :: 0 <= i < |targets| ==> IsStringNode(NodeAt(node, targets[i])))
  {
    if key.Some? {
      if ReplaceAll(node, targets).Some? {
        forall i | 0 <= i < |targets| ensures IsStringNode(NodeAt(node, targets[i])) {
          ReplaceAllHit(node, targets, i);
        }
      } else if forall i :: 0 <= i < |targets| ==> IsStringNode(NodeAt(node, targets[i])) {
        ReplaceAllDefined(node, targets);
      }
    }
  }

  lemma {:induction false} NodeAtAppend(node: SchemaNode, path: Path, rest: Path)
    requires NodeAt(node, path).Some?
    ensures NodeAt(node, path + rest) == NodeAt(NodeAt(node, path).value, rest)
    decreases |path|
  {
    if path == [] {
      assert path + rest == rest;
    } else {
      assert (path + rest)[1..] == path[1..] + rest;
      NodeAtAppend(Child(node, path[0]).value, path[1..], rest);
    }
  }

  lemma EnvelopeHasNoCustom(nullable: bool, path: Path)
    ensures !CustomAt(EnvelopeNode(nullable), path)
  {
    if path != [] && Child(EnvelopeNode(nullable), path[0]).Some? {
      var field := Child(EnvelopeNode(nullable), path[0]).value;
      assert field == SchemaNode(false, ScalarKind(StringType));
      assert NodeAt(EnvelopeNode(nullable), path) == NodeAt(field, path[1..]);
      assert NodeAt(field, path[1..]) == if |path| == 1 then Some(field) else None;
    }
  }

  /** The transform introduces no custom node. */
  lemma NoNewCustom(node: SchemaNode, targets: seq<Path>, key: Option<Seal>, path: Path)
    requires Apart(targets) && OutputSchema(node, targets, key).Some?
    requires CustomAt(OutputSchema(node, targets, key).value, path)
    ensures CustomAt(node, path)
  {
    if key.Some? {
      var r := ReplaceAll(node, targets).value;
      if Claimed(targets, path) {
        var k :| 0 <= k < |targets| && IsPrefix(targets[k], path);
        ReplaceAllHit(node, targets, k);
        assert path == targets[k] + path[|targets[k]|..];
        NodeAtAppend(r, targets[k], path[|targets[k]|..]);
        EnvelopeHasNoCustom(NodeAt(node, targets[k]).value.nullable, path[|targets[k]|..]);
      } else {
        ReplaceAllFrame(node, targets, path);
      }
    }
  }

  // ---------------------------------------------------------------------------
  // The pump
  // ---------------------------------------------------------------------------

  /** The transform refuses a row: a target is no string of the schema, or has a null ancestor in the row. */
  ghost predicate Refuses(v: Value, schema: SchemaNode, targets: seq<Path>) {
    exists i :: 0 <= i < |targets| && (!IsStringNode(NodeAt(schema, targets[i])) || NullAncestor(v, targets[i]))
  }

  lemma {:induction false} RefusesExactly(
    v: Value, schema: SchemaNode, targets: seq<Path>, key: Option<Seal>, limits: Limits)
    requires ValueValid(v, schema, limits) && Apart(targets)
    ensures TransformAll(v, schema, targets, key).None? <==> Refuses(v, schema, targets)
  {
    if forall i :: 0 <= i < |targets| ==> IsStringNode(NodeAt(schema, targets[i])) {
      EnvelopeFailsExactly(v, schema, targets, key, limits.maxNestingDepth);
    } else {
      var i :| 0 <= i < |targets| && !IsStringNode(NodeAt(schema, targets[i]));
      UnknownTargetFails(v, schema, targets, key, i);
    }
  }

  lemma {:induction false} UnknownTargetFails(
    v: Value, schema: SchemaNode, targets: seq<Path>, key: Option<Seal>, i: nat)
    requires i < |targets| && !IsStringNode(NodeAt(schema, targets[i]))
    ensures TransformAll(v, schema, targets, key).None?
    decreases |targets|
  {
    if i < |targets| - 1 { UnknownTargetFails(v, schema, targets[..|targets| - 1], key, i); }
  }

  /** Without a key, any target leaves the schema as it is; one that names no string refuses every row. */
  lemma KeylessTargetRefusesAll(schema: SchemaNode, targets: seq<Path>, i: nat, v: Value)
    requires i < |targets| && !IsStringNode(NodeAt(schema, targets[i]))
    ensures OutputSchema(schema, targets, None) == Some(schema)
    ensures TransformAll(v, schema, targets, None).None?
  {
    UnknownTargetFails(v, schema, targets, None, i);
  }

  /** So a record of one number, with that field as target, meets everything that planning demands. */
  lemma KeylessTargetPlans(limits: Limits, name: string) returns (p: Plans, targets: seq<Path>)
    requires name != [] && limits.maxNestingDepth >= 1 && limits.maxFields >= 1
    ensures targets == [[Field(name)]] && NodeAt(p.source, targets[0]).Some?
    ensures Apart(targets) && PlansSound(p, targets, None, limits) && (forall path :: !CustomAt(p.source, path))
    ensures forall v :: Refuses(v, p.source, targets)
  {
    var number := SchemaNode(false, ScalarKind(I64Type));
    var row := SchemaNode(false, RecordKind([SchemaField(name, number)]));
    p, targets := Plans(row, [], row, row, row), [[Field(name)]];
    OneField(name, number, false, limits.maxNestingDepth);
    assert Child(row, Field(name)) == Some(number) && NodeAt(row, targets[0]) == Some(number);
    forall path ensures !CustomAt(row, path) {
      if path != [] && NodeAt(row, path).Some? {
        assert Child(row, path[0]) == Some(number) && NodeAt(number, path[1..]) == Some(number);
      }
    }
    forall v ensures Refuses(v, row, targets) { assert !IsStringNode(NodeAt(row, targets[0])); }
  }

  class BinaryPump {
    const reductor: Reductor
    const targets: seq<Path>
    const key: Option<Seal>
    const limits: Limits
    var plans: Option<Plans>

    ghost predicate Valid()
      reads this
    {
      && Apart(targets)
      && (plans.Some? ==> PlansSound(plans.value, targets, key, limits))
      && (plans.Some? && reductor.Common? ==>
            && plans.value.claims == [] && plans.value.reduced == plans.value.source
            && plans.value.output == plans.value.transformed)
    }

    /** The targets come canonicalized from the transform. */
    constructor (reductor: Reductor, targets: seq<Path>, key: Option<Seal>, limits: Limits)
      requires Apart(targets)
      ensures Valid() && plans.None?
      ensures this.reductor == reductor && this.targets == targets && this.key == key && this.limits == limits
    {
      this.reductor, this.targets, this.key, this.limits := reductor, targets, key, limits;
      plans := None;
    }

    /** `BinaryReductor::plan`; `answer` is what a guest would reply, `None` for its failure. */
    method PlanReduction(source: SchemaNode, answer: Option<GuestPlan>) returns (r: Option<GuestPlan>)
      requires SchemaValid(source, limits)
      ensures reductor.Common? ==>
                && (r.Some? <==> forall path :: !CustomAt(source, path))
                && (r.Some? ==> r.value == GuestPlan([], source))
      ensures reductor.Guest? ==>
                && (r.Some? <==>
                      && answer.Some? && PrefixFree(answer.value.claims) && ClaimsFit(source, answer.value.claims)
                      && SchemaValid(answer.value.reduced, limits)
                      && AgreeOffClaims(source, answer.value.reduced, answer.value.claims))
                && (r.Some? ==> multiset(r.value.claims) == multiset(answer.value.claims)
                                && PrefixFree(r.value.claims) && r.value.reduced == answer.value.reduced)
    {
      if reductor.Common? {
        CustomWalkExact(source, [], limits.maxNestingDepth);
        return if CustomsClaimed(source, [], []) then Some(GuestPlan([], source)) else None;
      }
      if answer.None? { return None; }
      var claims := CanonicalizeClaims(answer.value.claims);
      if claims.Err? { return None; }
      ReorderedClaims(claims.value, answer.value.claims, source, answer.value.reduced);
      var fit := ValidateClaims(source, claims.value);
      if !fit || !SchemaValid(answer.value.reduced, limits) { return None; }
      CheckerExact(source, answer.value.reduced, PathsOf(claims.value), limits.maxNestingDepth);
      if !ChangesClaimed(source, answer.value.reduced, PathsOf(claims.value), []) { return None; }
      r := Some(GuestPlan(claims.value, answer.value.reduced));
    }

    /** `BinaryReductor::plan_restore`. */
    method PlanRestore(
      claims: seq<Claim>, transformed: SchemaNode, answer: Option<SchemaNode>) returns (r: Option<SchemaNode>)
      requires SchemaValid(transformed, limits) && (reductor.Common? ==> claims == [])
      ensures reductor.Common? ==>
                && (r.Some? <==> forall path :: !CustomAt(transformed, path))
                && (r.Some? ==> r.value == transformed)
      ensures reductor.Guest? ==>
                && (r.Some? <==>
                      && answer.Some? && SchemaValid(answer.value, limits)
                      && AgreeOffClaims(transformed, answer.value, claims))
                && (r.Some? ==> r == answer)
    {
      if reductor.Common? {
        CustomWalkExact(transformed, [], limits.maxNestingDepth);
        return if CustomsClaimed(transformed, [], []) then Some(transformed) else None;
      }
      if answer.None? || !SchemaValid(answer.value, limits) { return None; }
      CheckerExact(transformed, answer.value, PathsOf(claims), limits.maxNestingDepth);
      r := if ChangesClaimed(transformed, answer.value, PathsOf(claims), []) then answer else None;
    }

    /**
     `plan`: installs the frozen schemas or leaves the pump as it was. Whatever a guest answers, an
     installed output schema is the source schema at every path outside its claims and the targets.
     */
    method Plan(
      source: SchemaNode, planned: Option<GuestPlan>, restored: Option<SchemaNode>) returns (r: Option<SchemaNode>)
      requires Valid()
      modifies this
      ensures Valid()
      ensures r.None? ==> plans == old(plans)
      ensures r.Some? ==> plans.Some? && plans.value.source == source && plans.value.output == r.value
      ensures r.Some? && reductor.Guest? ==>
                && planned.Some? && restored.Some?
                && multiset(plans.value.claims) == multiset(planned.value.claims)
                && plans.value.reduced == planned.value.reduced && plans.value.output == restored.value
      ensures reductor.Common? ==>
                (r.Some? <==>
                   && SchemaValid(source, limits) && (forall path :: !CustomAt(source, path))
                   && OutputSchema(source, targets, key).Some?
                   && SchemaValid(OutputSchema(source, targets, key).value, limits))
      ensures reductor.Guest? ==>
                (r.Some? <==>
                   && planned.Some? && restored.Some?
                   && OutputSchema(planned.value.reduced, targets, key).Some?
                   && PlansSound(Plans(source, planned.value.claims, planned.value.reduced,
                                       OutputSchema(planned.value.reduced, targets, key).value, restored.value),
                                 targets, key, limits))
      ensures r.Some? ==> forall path ::
                !Claimed(PathsOf(plans.value.claims), path) && (key.Some? ==> !Claimed(targets, path)) ==>
                  Agree(source, r.value, path)
    {
      if !SchemaValid(source, limits) { return None; }
      var reduction := PlanReduction(source, planned);
      if reduction.None? { return None; }
      var transformed := OutputSchema(reduction.value.reduced, targets, key);
      if transformed.None? || !SchemaValid(transformed.value, limits) { return None; }
      var output := PlanRestore(reduction.value.claims, transformed.value, restored);
      if reductor.Common? {
        forall path | CustomAt(transformed.value, path) ensures CustomAt(source, path) {
          NoNewCustom(source, targets, key, path);
        }
      } else if restored.Some? {
        ReorderedClaims(planned.value.claims, reduction.value.claims, transformed.value, restored.value);
      }
      if output.None? { return None; }
      var p := Plans(source, reduction.value.claims, reduction.value.reduced, transformed.value, output.value);
      if reductor.Guest? { ReorderedClaims(planned.value.claims, p.claims, source, p.reduced); }
      forall path | !Claimed(PathsOf(p.claims), path) && (key.Some? ==> !Claimed(targets, path))
        ensures Agree(source, p.output, path)
      {
        OutputFrame(p, targets, key, limits, path);
      }
      plans := Some(p);
      r := output;
    }

    /**
     `process`: the guest's answers for one row are `reduced` and `restored`. The row that leaves
     is valid for the output schema, and validating between the stages never refuses anything.
     */
    method Process(v: Value, reduced: Option<Value>, restored: Option<Value>) returns (r: Result<Value, ProcessError>)
      requires Valid()
      ensures plans.None? ==> r == Err(NotPlanned)
      ensures plans.Some? && reductor.Common? ==>
                && (r.Ok? <==> ValueValid(v, plans.value.source, limits) && !Refuses(v, plans.value.source, targets))
                && (r.Ok? ==> TransformAll(v, plans.value.source, targets, key) == Some(r.value))
      ensures plans.Some? && reductor.Guest? ==>
                && (r.Ok? <==>
                      && ValueValid(v, plans.value.source, limits)
                      && reduced.Some? && ValueValid(reduced.value, plans.value.reduced, limits)
                      && !Refuses(reduced.value, plans.value.reduced, targets)
                      && restored.Some? && ValueValid(restored.value, plans.value.output, limits))
                && (r.Ok? ==> restored == Some(r.value))
      ensures r.Ok? ==> ValueValid(r.value, plans.value.output, limits)
      ensures r != Err(InvalidTransformed)
    {
      if plans.None? { return Err(NotPlanned); }
      var p := plans.value;
      if !ValueValid(v, p.source, limits) { return Err(InvalidSource); }
      var small := if reductor.Common? then Some(v) else reduced;
      if small.None? || !ValueValid(small.value, p.reduced, limits) { return Err(ReduceFailed); }
      RefusesExactly(small.value, p.reduced, targets, key, limits);
      var masked := TransformAll(small.value, p.reduced, targets, key);
      if masked.None? { return Err(TransformFailed); }
      EnvelopeTypeSound(small.value, p.reduced, targets, key, limits);
      if !ValueValid(masked.value, p.transformed, limits) { return Err(InvalidTransformed); }
      var whole := if reductor.Common? then masked else restored;
      if whole.None? || !ValueValid(whole.value, p.output, limits) { return Err(RestoreFailed); }
      r := Ok(whole.value);
    }
  }

  lemma ReorderedClaims(a: seq<Claim>, b: seq<Claim>, source: SchemaNode, other: SchemaNode)
    requires multiset(a) == multiset(b)
    ensures ClaimsFit(source, a) <==> ClaimsFit(source, b)
    ensures AgreeOffClaims(source, other, a) <==> AgreeOffClaims(source, other, b)
  {
    SameClaims(a, b, source, []);
    SameClaims(b, a, source, []);
    forall path ensures Claimed(PathsOf(a), path) <==> Claimed(PathsOf(b), path) {
      SameClaims(a, b, source, path);
      SameClaims(b, a, source, path);
    }
  }
}
