/** What a plan hash is taken over: length-prefixed parts that can be read back in only one way. */
module PlanHash {
  import opened Prelude
  import opened Bytes
  import opened Paths
  import Utf8

  /** The fixed words of the format: the two domains and the tag of each kind of segment. */
  datatype Labels = Labels(
    plan: string, restore: string, field: string, arrayElement: string, mapValue: string, logicalValue: string)

  const MASKURA := Labels("maskura.binary-reductor.plan.v1", "maskura.binary-reductor.restore-plan.v1",
                          "field", "array-element", "map-value", "logical-value")

  /** The domains differ, and so do the tags. */
  predicate Separate(w: Labels) {
    && w.plan != w.restore
    && w.field != w.arrayElement && w.field != w.mapValue && w.field != w.logicalValue
    && w.arrayElement != w.mapValue && w.arrayElement != w.logicalValue && w.mapValue != w.logicalValue
  }

  lemma MaskuraSeparate()
    ensures Separate(MASKURA)
  {
    assert MASKURA.arrayElement[0] != MASKURA.logicalValue[0];
  }

  /** Schemas are the bytes of their canonical JSON. */
  datatype ReductionPlan = ReductionPlan(
    owner: string, source: seq<byte>, reduced: seq<byte>,
    claims: seq<Claim>, coverage: seq<Claim>, guestPlan: seq<byte>)

  datatype RestorePlan = RestorePlan(
    reductionHash: seq<byte>, transformed: seq<byte>, output: seq<byte>, guestPlan: seq<byte>)

  type Parts = seq<seq<byte>>

  lemma Regroup<T>(a: seq<T>, b: seq<T>, c: seq<T>)
    ensures a + (b + c) == a + b + c
  {
  }

  lemma HeadCancels<T>(a: T, b: T, x: seq<T>, y: seq<T>)
    requires [a] + x == [b] + y
    ensures a == b && x == y
  {
    assert ([a] + x)[0] == a && ([b] + y)[0] == b;
    assert ([a] + x)[1..] == x && ([b] + y)[1..] == y;
  }

  lemma SameFrontAndLast<T>(s: seq<T>, t: seq<T>)
    requires |s| == |t| > 0 && s[..|s| - 1] == t[..|t| - 1] && s[|s| - 1] == t[|t| - 1]
    ensures s == t
  {
    assert s == s[..|s| - 1] + [s[|s| - 1]];
    assert t == t[..|t| - 1] + [t[|t| - 1]];
  }

  // ---------------------------------------------------------------------------
  // Parts
  // ---------------------------------------------------------------------------

  predicate FitsU64(n: nat) { n < Pow256(8) }

  /** A length as the source writes it: eight bytes, saturating. */
  function LengthBytes(n: nat): seq<byte> {
    BigEndian(if FitsU64(n) then n else Pow256(8) - 1, 8)
  }

  function PartBytes(part: seq<byte>): seq<byte> {
    LengthBytes(|part|) + part
  }

  function Join(parts: Parts): seq<byte> {
    if parts == [] then [] else PartBytes(parts[0]) + Join(parts[1..])
  }

  predicate PartsFit(parts: Parts) {
    forall i :: 0 <= i < |parts| ==> FitsU64(|parts[i]|)
  }

  lemma LengthInjective(n: nat, m: nat)
    requires FitsU64(n) && FitsU64(m) && LengthBytes(n) == LengthBytes(m)
    ensures n == m
  {
    EncodeInjective(n, m, 8);
  }

  lemma {:induction false} JoinConcat(a: Parts, b: Parts)
    ensures Join(a + b) == Join(a) + Join(b)
    decreases |a|
  {
    if a == [] {
      assert a + b == b;
    } else {
      assert (a + b)[1..] == a[1..] + b;
      JoinConcat(a[1..], b);
    }
  }

  lemma PartCancels(p: seq<byte>, q: seq<byte>, x: seq<byte>, y: seq<byte>)
    requires FitsU64(|p|) && FitsU64(|q|) && PartBytes(p) + x == PartBytes(q) + y
    ensures p == q && x == y
  {
    var s, t := PartBytes(p) + x, PartBytes(q) + y;
    assert s[..8] == LengthBytes(|p|) && t[..8] == LengthBytes(|q|);
    LengthInjective(|p|, |q|);
    assert s[8..8 + |p|] == p && t[8..8 + |q|] == q;
    assert s[8 + |p|..] == x && t[8 + |q|..] == y;
  }

  /** The bytes absorbed determine the parts. */
  lemma {:induction false} JoinInjective(a: Parts, b: Parts)
    requires PartsFit(a) && PartsFit(b) && Join(a) == Join(b)
    ensures a == b
    decreases |a|
  {
    if a != [] && b != [] {
      PartCancels(a[0], b[0], Join(a[1..]), Join(b[1..]));
      JoinInjective(a[1..], b[1..]);
      assert a == [a[0]] + a[1..] && b == [b[0]] + b[1..];
    }
  }

  // ---------------------------------------------------------------------------
  // Claims
  // ---------------------------------------------------------------------------

  function Tag(w: Labels, s: Segment): string {
    match s
    case Field(_) => w.field
    case ArrayElement => w.arrayElement
    case MapValue => w.mapValue
    case LogicalValue => w.logicalValue
  }

  function SegmentParts(w: Labels, s: Segment): Parts {
    if s.Field? then [Utf8.Encode(Tag(w, s)), Utf8.Encode(s.name)] else [Utf8.Encode(Tag(w, s))]
  }

  function PathParts(w: Labels, path: Path): Parts {
    if path == [] then [] else PathParts(w, path[..|path| - 1]) + SegmentParts(w, path[|path| - 1])
  }

  function ClaimParts(w: Labels, c: Claim): Parts {
    [Utf8.Encode(c.typeId)] + ([LengthBytes(|c.path|)] + PathParts(w, c.path))
  }

  function ClaimsParts(w: Labels, claims: seq<Claim>): Parts {
    if claims == [] then [] else ClaimsParts(w, claims[..|claims| - 1]) + ClaimParts(w, claims[|claims| - 1])
  }

  function ClaimList(w: Labels, claims: seq<Claim>): Parts {
    [LengthBytes(|claims|)] + ClaimsParts(w, claims)
  }

  predicate ClaimsFit(claims: seq<Claim>) {
    FitsU64(|claims|) && forall i :: 0 <= i < |claims| ==> FitsU64(|claims[i].path|)
  }

  lemma SegmentCancels(w: Labels, s: Segment, t: Segment, x: Parts, y: Parts)
    requires Separate(w) && SegmentParts(w, s) + x == SegmentParts(w, t) + y
    ensures s == t && x == y
  {
    var a, b := SegmentParts(w, s) + x, SegmentParts(w, t) + y;
    assert a[0] == Utf8.Encode(Tag(w, s)) && b[0] == Utf8.Encode(Tag(w, t));
    Utf8.EncodeInjective(Tag(w, s), Tag(w, t));
    if s.Field? {
      assert a[1] == Utf8.Encode(s.name) && b[1] == Utf8.Encode(t.name);
      Utf8.EncodeInjective(s.name, t.name);
    }
    assert x == a[|SegmentParts(w, s)|..] && y == b[|SegmentParts(w, t)|..];
  }

  lemma {:induction false} PathCancels(w: Labels, p: Path, q: Path, x: Parts, y: Parts)
    requires Separate(w) && |p| == |q| && PathParts(w, p) + x == PathParts(w, q) + y
    ensures p == q && x == y
    decreases |p|
  {
    if p == [] {
      assert [] + x == x && [] + y == y;
    } else {
      var n := |p| - 1;
      Regroup(PathParts(w, p[..n]), SegmentParts(w, p[n]), x);
      Regroup(PathParts(w, q[..n]), SegmentParts(w, q[n]), y);
      PathCancels(w, p[..n], q[..n], SegmentParts(w, p[n]) + x, SegmentParts(w, q[n]) + y);
      SegmentCancels(w, p[n], q[n], x, y);
      SameFrontAndLast(p, q);
    }
  }

  lemma ClaimCancels(w: Labels, c: Claim, d: Claim, x: Parts, y: Parts)
    requires Separate(w) && FitsU64(|c.path|) && FitsU64(|d.path|) && ClaimParts(w, c) + x == ClaimParts(w, d) + y
    ensures c == d && x == y
  {
    ClaimPartsThen(w, c, x);
    ClaimPartsThen(w, d, y);
    HeadCancels(Utf8.Encode(c.typeId), Utf8.Encode(d.typeId),
                [LengthBytes(|c.path|)] + (PathParts(w, c.path) + x),
                [LengthBytes(|d.path|)] + (PathParts(w, d.path) + y));
    HeadCancels(LengthBytes(|c.path|), LengthBytes(|d.path|), PathParts(w, c.path) + x, PathParts(w, d.path) + y);
    Utf8.EncodeInjective(c.typeId, d.typeId);
    LengthInjective(|c.path|, |d.path|);
    PathCancels(w, c.path, d.path, x, y);
  }

  lemma ClaimPartsThen(w: Labels, c: Claim, x: Parts)
    ensures ClaimParts(w, c) + x == [Utf8.Encode(c.typeId)] + ([LengthBytes(|c.path|)] + (PathParts(w, c.path) + x))
  {
    Regroup([Utf8.Encode(c.typeId)], [LengthBytes(|c.path|)] + PathParts(w, c.path), x);
    Regroup([LengthBytes(|c.path|)], PathParts(w, c.path), x);
  }

  lemma {:induction false} ClaimsCancel(w: Labels, cs: seq<Claim>, ds: seq<Claim>, x: Parts, y: Parts)
    requires Separate(w) && |cs| == |ds| && ClaimsFit(cs) && ClaimsFit(ds)
    requires ClaimsParts(w, cs) + x == ClaimsParts(w, ds) + y
    ensures cs == ds && x == y
    decreases |cs|
  {
    if cs == [] {
      assert [] + x == x && [] + y == y;
    } else {
      var n := |cs| - 1;
      Regroup(ClaimsParts(w, cs[..n]), ClaimParts(w, cs[n]), x);
      Regroup(ClaimsParts(w, ds[..n]), ClaimParts(w, ds[n]), y);
      ClaimsCancel(w, cs[..n], ds[..n], ClaimParts(w, cs[n]) + x, ClaimParts(w, ds[n]) + y);
      ClaimCancels(w, cs[n], ds[n], x, y);
      SameFrontAndLast(cs, ds);
    }
  }

  lemma ClaimListCancels(w: Labels, cs: seq<Claim>, ds: seq<Claim>, x: Parts, y: Parts)
    requires Separate(w) && ClaimsFit(cs) && ClaimsFit(ds) && ClaimList(w, cs) + x == ClaimList(w, ds) + y
    ensures cs == ds && x == y
  {
    Regroup([LengthBytes(|cs|)], ClaimsParts(w, cs), x);
    Regroup([LengthBytes(|ds|)], ClaimsParts(w, ds), y);
    HeadCancels(LengthBytes(|cs|), LengthBytes(|ds|), ClaimsParts(w, cs) + x, ClaimsParts(w, ds) + y);
    LengthInjective(|cs|, |ds|);
    ClaimsCancel(w, cs, ds, x, y);
  }

  // ---------------------------------------------------------------------------
  // Plans
  // ---------------------------------------------------------------------------

  function PlanParts(w: Labels, p: ReductionPlan): Parts {
    [Utf8.Encode(w.plan), Utf8.Encode(p.owner), p.source, p.reduced]
    + (ClaimList(w, p.claims) + (ClaimList(w, p.coverage) + [p.guestPlan]))
  }

  function RestoreParts(w: Labels, p: RestorePlan): Parts {
    [Utf8.Encode(w.restore), p.reductionHash, p.transformed, p.output, p.guestPlan]
  }

  /** Everything counted or measured in the plan fits the eight bytes it is written in. */
  predicate PlanFits(w: Labels, p: ReductionPlan) {
    PartsFit(PlanParts(w, p)) && ClaimsFit(p.claims) && ClaimsFit(p.coverage)
  }

  /** Reduction plans are told apart by what their hash is taken over. */
  lemma PlanPreimageInjective(w: Labels, p: ReductionPlan, q: ReductionPlan)
    requires Separate(w) && PlanFits(w, p) && PlanFits(w, q)
    ensures Join(PlanParts(w, p)) == Join(PlanParts(w, q)) <==> p == q
  {
    if Join(PlanParts(w, p)) == Join(PlanParts(w, q)) {
      JoinInjective(PlanParts(w, p), PlanParts(w, q));
      PlanPartsInjective(w, p, q);
    }
  }

  lemma PlanPartsInjective(w: Labels, p: ReductionPlan, q: ReductionPlan)
    requires Separate(w) && ClaimsFit(p.claims) && ClaimsFit(q.claims) && ClaimsFit(p.coverage) && ClaimsFit(q.coverage)
    requires PlanParts(w, p) == PlanParts(w, q)
    ensures p == q
  {
    var a, b := PlanParts(w, p), PlanParts(w, q);
    assert a[1] == Utf8.Encode(p.owner) && b[1] == Utf8.Encode(q.owner);
    Utf8.EncodeInjective(p.owner, q.owner);
    assert a[2] == p.source && b[2] == q.source && a[3] == p.reduced && b[3] == q.reduced;
    var x, y := ClaimList(w, p.coverage) + [p.guestPlan], ClaimList(w, q.coverage) + [q.guestPlan];
    assert a[4..] == ClaimList(w, p.claims) + x && b[4..] == ClaimList(w, q.claims) + y;
    ClaimListCancels(w, p.claims, q.claims, x, y);
    ClaimListCancels(w, p.coverage, q.coverage, [p.guestPlan], [q.guestPlan]);
  }

  lemma RestorePreimageInjective(w: Labels, p: RestorePlan, q: RestorePlan)
    requires PartsFit(RestoreParts(w, p)) && PartsFit(RestoreParts(w, q))
    ensures Join(RestoreParts(w, p)) == Join(RestoreParts(w, q)) <==> p == q
  {
    var a, b := RestoreParts(w, p), RestoreParts(w, q);
    if Join(a) == Join(b) {
      JoinInjective(a, b);
      assert a[1] == b[1] && a[2] == b[2] && a[3] == b[3] && a[4] == b[4];
    }
  }

  /** No reduction plan is hashed over the bytes of a restore plan. */
  lemma DomainsSeparate(w: Labels, p: ReductionPlan, q: RestorePlan)
    requires Separate(w) && PlanFits(w, p) && PartsFit(RestoreParts(w, q))
    ensures Join(PlanParts(w, p)) != Join(RestoreParts(w, q))
  {
    if Join(PlanParts(w, p)) == Join(RestoreParts(w, q)) {
      var a, b := PlanParts(w, p), RestoreParts(w, q);
      assert a[0] == Utf8.Encode(w.plan) && b[0] == Utf8.Encode(w.restore);
      JoinInjective(a, b);
      Utf8.EncodeInjective(w.plan, w.restore);
    }
  }

  // ---------------------------------------------------------------------------
  // The hasher
  // ---------------------------------------------------------------------------

  lemma AbsorbMore(was: seq<byte>, a: Parts, b: Parts)
    ensures was + Join(a) + Join(b) == was + Join(a + b)
  {
    JoinConcat(a, b);
    Regroup(was, Join(a), Join(b));
  }

  lemma NextSegment(w: Labels, head: Parts, path: Path, n: nat)
    requires n < |path|
    ensures head + PathParts(w, path[..n + 1]) == head + PathParts(w, path[..n]) + SegmentParts(w, path[n])
  {
    assert path[..n + 1][..n] == path[..n];
    Regroup(head, PathParts(w, path[..n]), SegmentParts(w, path[n]));
  }

  lemma NextClaim(w: Labels, head: Parts, claims: seq<Claim>, n: nat)
    requires n < |claims|
    ensures head + ClaimsParts(w, claims[..n + 1]) == head + ClaimsParts(w, claims[..n]) + ClaimParts(w, claims[n])
  {
    assert claims[..n + 1][..n] == claims[..n];
    Regroup(head, ClaimsParts(w, claims[..n]), ClaimParts(w, claims[n]));
  }

  /** The running hash, as the bytes it has absorbed. */
  class Hasher {
    var absorbed: seq<byte>

    constructor ()
      ensures absorbed == []
    {
      absorbed := [];
    }

    /** `hash_part`. */
    method Part(part: seq<byte>)
      modifies this
      ensures absorbed == old(absorbed) + Join([part])
    {
      absorbed := absorbed + LengthBytes(|part|);
      absorbed := absorbed + part;
      assert Join([part]) == LengthBytes(|part|) + part;
    }

    /** The loop of `hash_parts`. */
    method InTurn(parts: Parts)
      modifies this
      ensures absorbed == old(absorbed) + Join(parts)
    {
      for n := 0 to |parts|
        invariant absorbed == old(absorbed) + Join(parts[..n])
      {
        Part(parts[n]);
        AbsorbMore(old(absorbed), parts[..n], [parts[n]]);
        assert parts[..n + 1] == parts[..n] + [parts[n]];
      }
      assert parts[..|parts|] == parts;
    }

    method Segment(w: Labels, s: Segment)
      modifies this
      ensures absorbed == old(absorbed) + Join(SegmentParts(w, s))
    {
      Part(Utf8.Encode(Tag(w, s)));
      if s.Field? {
        Part(Utf8.Encode(s.name));
        AbsorbMore(old(absorbed), [Utf8.Encode(Tag(w, s))], [Utf8.Encode(s.name)]);
      }
    }

    /** The loop over the segments of one claim, after its type id and length. */
    method Segments(w: Labels, path: Path, ghost head: Parts, ghost was: seq<byte>)
      requires absorbed == was + Join(head)
      modifies this
      ensures absorbed == was + Join(head + PathParts(w, path))
    {
      assert head + [] == head;
      for n := 0 to |path|
        invariant absorbed == was + Join(head + PathParts(w, path[..n]))
      {
        Segment(w, path[n]);
        AbsorbMore(was, head + PathParts(w, path[..n]), SegmentParts(w, path[n]));
        NextSegment(w, head, path, n);
      }
      assert path[..|path|] == path;
    }

    method OneClaim(w: Labels, c: Claim)
      modifies this
      ensures absorbed == old(absorbed) + Join(ClaimParts(w, c))
    {
      Part(Utf8.Encode(c.typeId));
      Part(LengthBytes(|c.path|));
      AbsorbMore(old(absorbed), [Utf8.Encode(c.typeId)], [LengthBytes(|c.path|)]);
      Segments(w, c.path, [Utf8.Encode(c.typeId)] + [LengthBytes(|c.path|)], old(absorbed));
      Regroup([Utf8.Encode(c.typeId)], [LengthBytes(|c.path|)], PathParts(w, c.path));
    }

    method EachClaim(w: Labels, claims: seq<Claim>, ghost head: Parts, ghost was: seq<byte>)
      requires absorbed == was + Join(head)
      modifies this
      ensures absorbed == was + Join(head + ClaimsParts(w, claims))
    {
      assert head + [] == head;
      for n := 0 to |claims|
        invariant absorbed == was + Join(head + ClaimsParts(w, claims[..n]))
      {
        OneClaim(w, claims[n]);
        AbsorbMore(was, head + ClaimsParts(w, claims[..n]), ClaimParts(w, claims[n]));
        NextClaim(w, head, claims, n);
      }
      assert claims[..|claims|] == claims;
    }

    /** `hash_claims`. */
    method Claims(w: Labels, claims: seq<Claim>)
      modifies this
      ensures absorbed == old(absorbed) + Join(ClaimList(w, claims))
    {
      Part(LengthBytes(|claims|));
      EachClaim(w, claims, [LengthBytes(|claims|)], old(absorbed));
    }
  }

  lemma PlanPartsInOrder(w: Labels, p: ReductionPlan, head: Parts)
    requires head == [Utf8.Encode(w.plan), Utf8.Encode(p.owner), p.source, p.reduced]
    ensures Join(PlanParts(w, p))
            == Join(head) + Join(ClaimList(w, p.claims)) + Join(ClaimList(w, p.coverage)) + Join([p.guestPlan])
  {
    var claims, coverage := ClaimList(w, p.claims), ClaimList(w, p.coverage);
    JoinConcat(coverage, [p.guestPlan]);
    JoinConcat(claims, coverage + [p.guestPlan]);
    JoinConcat(head, claims + (coverage + [p.guestPlan]));
    Regroup(Join(claims), Join(coverage), Join([p.guestPlan]));
    Regroup(Join(head), Join(claims) + Join(coverage), Join([p.guestPlan]));
    Regroup(Join(head), Join(claims), Join(coverage));
  }

  /** `hash_reduction_plan`, up to the digest: the bytes absorbed are the plan's parts in order. */
  method HashReductionPlan(w: Labels, p: ReductionPlan) returns (absorbed: seq<byte>)
    ensures absorbed == Join(PlanParts(w, p))
  {
    var hasher := new Hasher();
    var head := [Utf8.Encode(w.plan), Utf8.Encode(p.owner), p.source, p.reduced];
    hasher.InTurn(head);
    assert [] + Join(head) == Join(head);
    hasher.Claims(w, p.claims);
    hasher.Claims(w, p.coverage);
    hasher.Part(p.guestPlan);
    PlanPartsInOrder(w, p, head);
    absorbed := hasher.absorbed;
  }

  /** The restore plan's hash, up to the digest. */
  method HashRestorePlan(w: Labels, p: RestorePlan) returns (absorbed: seq<byte>)
    ensures absorbed == Join(RestoreParts(w, p))
  {
    var hasher := new Hasher();
    hasher.Part(Utf8.Encode(w.restore));
    var parts := [p.reductionHash, p.transformed, p.output, p.guestPlan];
    hasher.InTurn(parts);
    AbsorbMore([], [Utf8.Encode(w.restore)], parts);
    assert [Utf8.Encode(w.restore)] + parts == RestoreParts(w, p);
    assert [] + Join(RestoreParts(w, p)) == Join(RestoreParts(w, p));
    absorbed := hasher.absorbed;
  }
}
