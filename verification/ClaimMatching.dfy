/** Which concrete values of a row a schema path selects. */
module ClaimMatching {
  import opened Prelude
  import opened Paths
  import opened Ir

  datatype Selected = Selected(step: Step, value: Value)

  datatype Visit = Visit(path: ValuePath, value: Value)

  /** The children one schema segment fans out to, in iteration order. */
  function Selection(v: Value, segment: Segment): seq<Selected> {
    match (v, segment)
    case (Record(fields), Field(name)) =>
      var i := Find(EntryNames(fields), name);
      if i < |fields| then [Selected(FieldNamed(name), fields[i].value)] else []
    case (Array(items), ArrayElement) =>
      seq(|items|, i requires 0 <= i < |items| => Selected(ArrayIndex(i), items[i]))
    case (Map(entries), MapValue) =>
      seq(|entries|, i requires 0 <= i < |entries| => Selected(MapKey(entries[i].name), entries[i].value))
    case (Custom(_, value), LogicalValue) => [Selected(Logical, value)]
    case _ => []
  }

  function Visits(v: Value, claim: Path, base: ValuePath): seq<Visit>
    decreases |claim|, 0
  {
    if claim == [] then [Visit(base, v)] else VisitAll(Selection(v, claim[0]), claim[1..], base)
  }

  function VisitAll(chosen: seq<Selected>, claim: Path, base: ValuePath): seq<Visit>
    decreases |claim|, 1 + |chosen|
  {
    if chosen == [] then []
    else VisitAll(chosen[..|chosen| - 1], claim, base)
         + Visits(chosen[|chosen| - 1].value, claim, base + [chosen[|chosen| - 1].step])
  }

  /** `visit_claim_matches_inner`: the recursion that pushes and pops the concrete path. */
  method VisitClaimMatches(v: Value, claim: Path, base: ValuePath) returns (visited: seq<Visit>)
    ensures visited == Visits(v, claim, base)
    decreases |claim|
  {
    if claim == [] { return [Visit(base, v)]; }
    var chosen := Selection(v, claim[0]);
    visited := [];
    for n := 0 to |chosen|
      invariant visited == VisitAll(chosen[..n], claim[1..], base)
    {
      assert chosen[..n + 1][..n] == chosen[..n];
      var below := VisitClaimMatches(chosen[n].value, claim[1..], base + [chosen[n].step]);
      visited := visited + below;
    }
    assert chosen[..|chosen|] == chosen;
  }

  // ---------------------------------------------------------------------------
  // One segment
  // ---------------------------------------------------------------------------

  /** Keys and names are distinct at the top of `v`, as they are in a well-formed value. */
  ghost predicate DistinctChildren(v: Value) {
    && (v.Map? ==> Distinct(EntryNames(v.entries)))
    && (v.Record? ==> Distinct(EntryNames(v.fields)))
  }

  lemma WellFormedDistinct(v: Value, depth: int)
    requires ValueWellFormed(v, depth)
    ensures DistinctChildren(v)
  {
    if v.Map? { AscendingDistinct(EntryNames(v.entries)); }
  }

  /** A selected child is the child its step leads to. */
  lemma SelectionSound(v: Value, segment: Segment, depth: int, k: nat)
    requires ValueWellFormed(v, depth) && k < |Selection(v, segment)|
    ensures var c := Selection(v, segment)[k];
            Erase(c.step) == segment && ValueChild(v, c.step) == Some(c.value) && ValueWellFormed(c.value, depth - 1)
  {
    WellFormedDistinct(v, depth);
  }

  /** Every child is selected by the erasure of its step. */
  lemma SelectionComplete(v: Value, step: Step) returns (k: nat)
    requires ValueChild(v, step).Some?
    ensures var chosen := Selection(v, Erase(step));
            k < |chosen| && chosen[k] == Selected(step, ValueChild(v, step).value)
  {
    match step
    case ArrayIndex(i) => k := i;
    case MapKey(key) => k := Find(EntryNames(v.entries), key);
    case _ => k := 0;
  }

  lemma SelectionOnce(v: Value, segment: Segment, depth: int, k: nat, l: nat)
    requires ValueWellFormed(v, depth) && k < |Selection(v, segment)| && l < |Selection(v, segment)|
    requires Selection(v, segment)[k].step == Selection(v, segment)[l].step
    ensures k == l
  {
    WellFormedDistinct(v, depth);
    if v.Map? && segment.MapValue? {
      assert EntryNames(v.entries)[k] == EntryNames(v.entries)[l];
    }
  }

  // ---------------------------------------------------------------------------
  // Whole claims
  // ---------------------------------------------------------------------------

  /** Where a visit below a list of children comes from. */
  lemma {:induction false} Locate(chosen: seq<Selected>, claim: Path, base: ValuePath, i: nat) returns (k: nat, j: nat)
    requires i < |VisitAll(chosen, claim, base)|
    ensures k < |chosen| && j < |Visits(chosen[k].value, claim, base + [chosen[k].step])|
    ensures VisitAll(chosen, claim, base)[i] == Visits(chosen[k].value, claim, base + [chosen[k].step])[j]
    ensures i == |VisitAll(chosen[..k], claim, base)| + j
    decreases |chosen|
  {
    var front := chosen[..|chosen| - 1];
    if i < |VisitAll(front, claim, base)| {
      k, j := Locate(front, claim, base, i);
      assert front[..k] == chosen[..k];
    } else {
      k, j := |chosen| - 1, i - |VisitAll(front, claim, base)|;
    }
  }

  /** Every visit below a child is a visit below the list. */
  lemma {:induction false} Place(chosen: seq<Selected>, claim: Path, base: ValuePath, k: nat, j: nat) returns (i: nat)
    requires k < |chosen| && j < |Visits(chosen[k].value, claim, base + [chosen[k].step])|
    ensures i < |VisitAll(chosen, claim, base)|
    ensures VisitAll(chosen, claim, base)[i] == Visits(chosen[k].value, claim, base + [chosen[k].step])[j]
    decreases |chosen|
  {
    var front := chosen[..|chosen| - 1];
    if k < |front| {
      i := Place(front, claim, base, k, j);
    } else {
      i := |VisitAll(front, claim, base)| + j;
    }
  }

  ghost predicate IsVisit(v: Value, claim: Path, base: ValuePath, visit: Visit, below: ValuePath) {
    visit.path == base + below && ErasePath(below) == claim && ValueAt(v, below) == Some(visit.value)
  }

  lemma VisitExtends(v: Value, claim: Path, base: ValuePath, step: Step, child: Value, visit: Visit, rest: ValuePath)
    requires claim != [] && Erase(step) == claim[0] && ValueChild(v, step) == Some(child)
    requires IsVisit(child, claim[1..], base + [step], visit, rest)
    ensures IsVisit(v, claim, base, visit, [step] + rest)
  {
    assert base + [step] + rest == base + ([step] + rest);
  }

  /** Soundness: each visit is at a concrete path that erases to the claim, with the value found there. */
  lemma {:induction false} VisitSound(
    v: Value, claim: Path, base: ValuePath, depth: int, i: nat) returns (below: ValuePath)
    requires ValueWellFormed(v, depth) && i < |Visits(v, claim, base)|
    ensures IsVisit(v, claim, base, Visits(v, claim, base)[i], below)
    decreases |claim|
  {
    if claim == [] {
      below := [];
      assert base + [] == base;
    } else {
      var chosen := Selection(v, claim[0]);
      var k, j := Locate(chosen, claim[1..], base, i);
      SelectionSound(v, claim[0], depth, k);
      var step := chosen[k].step;
      var rest := VisitSound(chosen[k].value, claim[1..], base + [step], depth - 1, j);
      below := [step] + rest;
      VisitExtends(v, claim, base, step, chosen[k].value, Visits(v, claim, base)[i], rest);
    }
  }

  /** Completeness: every concrete path that erases to the claim and exists is visited. */
  lemma {:induction false} VisitComplete(v: Value, base: ValuePath, below: ValuePath) returns (i: nat)
    requires ValueAt(v, below).Some?
    ensures var visits := Visits(v, ErasePath(below), base);
            i < |visits| && visits[i] == Visit(base + below, ValueAt(v, below).value)
    decreases |below|
  {
    var claim := ErasePath(below);
    if below == [] {
      i := 0;
      assert base + [] == base;
    } else {
      var child := ValueChild(v, below[0]).value;
      var k := SelectionComplete(v, below[0]);
      assert claim[1..] == ErasePath(below[1..]);
      var j := VisitComplete(child, base + [below[0]], below[1..]);
      assert base + [below[0]] + below[1..] == base + below;
      i := Place(Selection(v, claim[0]), claim[1..], base, k, j);
    }
  }

  /** A visit below the k-th selected child passes through that child's step. */
  lemma VisitPassesThrough(v: Value, claim: Path, base: ValuePath, depth: int, k: nat, j: nat)
    requires claim != [] && ValueWellFormed(v, depth) && k < |Selection(v, claim[0])|
    requires var c := Selection(v, claim[0])[k]; j < |Visits(c.value, claim[1..], base + [c.step])|
    ensures var c := Selection(v, claim[0])[k];
            var path := Visits(c.value, claim[1..], base + [c.step])[j].path;
            ValueWellFormed(c.value, depth - 1) && |path| > |base| && path[|base|] == c.step
  {
    SelectionSound(v, claim[0], depth, k);
    var c := Selection(v, claim[0])[k];
    var below := VisitSound(c.value, claim[1..], base + [c.step], depth - 1, j);
    assert (base + [c.step] + below)[|base|] == c.step;
  }

  /** At most once: no concrete path is visited twice. */
  lemma {:induction false} VisitOnce(v: Value, claim: Path, base: ValuePath, depth: int, i: nat, i': nat)
    requires ValueWellFormed(v, depth) && i < |Visits(v, claim, base)| && i' < |Visits(v, claim, base)|
    requires Visits(v, claim, base)[i].path == Visits(v, claim, base)[i'].path
    ensures i == i'
    decreases |claim|
  {
    if claim != [] {
      var chosen := Selection(v, claim[0]);
      var k, j := Locate(chosen, claim[1..], base, i);
      var k', j' := Locate(chosen, claim[1..], base, i');
      VisitPassesThrough(v, claim, base, depth, k, j);
      VisitPassesThrough(v, claim, base, depth, k', j');
      SelectionOnce(v, claim[0], depth, k, k');
      VisitOnce(chosen[k].value, claim[1..], base + [chosen[k].step], depth - 1, j, j');
    }
  }

  lemma {:induction false} SelectedMatches(v: Value, node: SchemaNode, below: ValuePath)
    requires Matches(v, node) && ValueAt(v, below).Some?
    ensures var n := NodeAt(node, ErasePath(below));
            n.Some? && Matches(ValueAt(v, below).value, n.value)
    decreases |below|
  {
    if below != [] {
      SelectedMatches(ValueChild(v, below[0]).value, Child(node, Erase(below[0])).value, below[1..]);
      assert ErasePath(below)[1..] == ErasePath(below[1..]);
    }
  }

  ghost predicate FitsAt(root: SchemaNode, claim: Path, v: Value) {
    NodeAt(root, claim).Some? && Matches(v, NodeAt(root, claim).value)
  }

  lemma VisitTyped(v: Value, root: SchemaNode, claim: Path, depth: int, i: nat)
    requires ValueWellFormed(v, depth) && Matches(v, root) && i < |Visits(v, claim, [])|
    ensures var visit := Visits(v, claim, [])[i];
            && ErasePath(visit.path) == claim && ValueAt(v, visit.path) == Some(visit.value)
            && FitsAt(root, claim, visit.value)
  {
    var below := VisitSound(v, claim, [], depth, i);
    assert [] + below == below;
    SelectedMatches(v, root, below);
  }

  ghost predicate EachOnce(visits: seq<Visit>) {
    forall i, j :: 0 <= i < |visits| && 0 <= j < |visits| && visits[i].path == visits[j].path ==> i == j
  }

  /** The visits are exactly the places of `v` that erase to the claim, with their values. */
  ghost predicate ExactlyAt(visits: seq<Visit>, v: Value, claim: Path) {
    forall p, x :: Visit(p, x) in visits <==> ErasePath(p) == claim && ValueAt(v, p) == Some(x)
  }

  lemma VisitsEachOnce(v: Value, claim: Path, depth: int)
    requires ValueWellFormed(v, depth)
    ensures EachOnce(Visits(v, claim, []))
  {
    var visits := Visits(v, claim, []);
    forall i, j | 0 <= i < |visits| && 0 <= j < |visits| && visits[i].path == visits[j].path ensures i == j {
      VisitOnce(v, claim, [], depth, i, j);
    }
  }

  lemma VisitsExactlyAt(v: Value, claim: Path, depth: int)
    requires ValueWellFormed(v, depth)
    ensures ExactlyAt(Visits(v, claim, []), v, claim)
  {
    var visits := Visits(v, claim, []);
    forall p, x ensures Visit(p, x) in visits <==> ErasePath(p) == claim && ValueAt(v, p) == Some(x) {
      assert [] + p == p;
      if ErasePath(p) == claim && ValueAt(v, p) == Some(x) {
        var i := VisitComplete(v, [], p);
      }
      if Visit(p, x) in visits {
        var i :| 0 <= i < |visits| && visits[i] == Visit(p, x);
        var below := VisitSound(v, claim, [], depth, i);
        assert [] + below == below;
      }
    }
  }

  /**
   On a valid row, a claim visits each concrete path it erases from exactly once, hands over the
   value found there, and that value matches the schema at the claim.
   */
  lemma ClaimVisitedExactly(v: Value, root: SchemaNode, limits: Limits, claim: Path)
    requires ValueValid(v, root, limits)
    ensures EachOnce(Visits(v, claim, [])) && ExactlyAt(Visits(v, claim, []), v, claim)
    ensures forall i :: 0 <= i < |Visits(v, claim, [])| ==> FitsAt(root, claim, Visits(v, claim, [])[i].value)
  {
    VisitsEachOnce(v, claim, limits.maxNestingDepth);
    VisitsExactlyAt(v, claim, limits.maxNestingDepth);
    forall i | 0 <= i < |Visits(v, claim, [])| ensures FitsAt(root, claim, Visits(v, claim, [])[i].value) {
      VisitTyped(v, root, claim, limits.maxNestingDepth, i);
    }
  }
}
