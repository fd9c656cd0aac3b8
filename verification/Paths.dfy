/** Schema paths: their order, their prefixes, and why checking neighbours after sorting is enough. */
module Paths {
  import opened Prelude

  datatype Segment = Field(name: string) | ArrayElement | MapValue | LogicalValue

  type Path = seq<Segment>

  /** A path owned by a reductor, with the type id it claims there. An envelope target is a claim of no type. */
  datatype Claim = Claim(path: Path, typeId: string)

  /** `path_is_prefix`. */
  predicate IsPrefix(prefix: Path, path: Path) {
    |prefix| <= |path| && path[..|prefix|] == prefix
  }

  // ---------------------------------------------------------------------------
  // The order of `compare_paths`
  // ---------------------------------------------------------------------------

  datatype Ordering = Less | Equal | Greater

  function CompareInts(a: int, b: int): Ordering {
    if a < b then Less else if a == b then Equal else Greater
  }

  function CompareNames(a: string, b: string): Ordering {
    if a == [] || b == [] then CompareInts(|a|, |b|)
    else if a[0] != b[0] then CompareInts(a[0] as int, b[0] as int)
    else CompareNames(a[1..], b[1..])
  }

  function Rank(s: Segment): int {
    match s
    case Field(_) => 0
    case ArrayElement => 1
    case MapValue => 2
    case LogicalValue => 3
  }

  function CompareSegments(a: Segment, b: Segment): Ordering {
    if a.Field? && b.Field? then CompareNames(a.name, b.name) else CompareInts(Rank(a), Rank(b))
  }

  function ComparePaths(a: Path, b: Path): Ordering {
    if a == [] || b == [] then CompareInts(|a|, |b|)
    else
      var c := CompareSegments(a[0], b[0]);
      if c != Equal then c else ComparePaths(a[1..], b[1..])
  }

  /** The answer when the two sides change places. */
  function Flip(c: Ordering): Ordering {
    match c case Less => Greater case Equal => Equal case Greater => Less
  }

  lemma {:induction false} NamesOrdered(a: string, b: string)
    ensures CompareNames(b, a) == Flip(CompareNames(a, b))
    ensures CompareNames(a, b) == Equal <==> a == b
    decreases |a|
  {
    if a != [] && b != [] && a[0] == b[0] {
      NamesOrdered(a[1..], b[1..]);
      assert a == [a[0]] + a[1..] && b == [b[0]] + b[1..];
    }
  }

  lemma {:induction false} NamesTransitive(a: string, b: string, c: string)
    requires CompareNames(a, b) != Greater && CompareNames(b, c) != Greater
    ensures CompareNames(a, c) != Greater
    ensures CompareNames(a, b) == Less || CompareNames(b, c) == Less ==> CompareNames(a, c) == Less
    decreases |a|
  {
    if a != [] && b != [] && c != [] && a[0] == b[0] == c[0] { NamesTransitive(a[1..], b[1..], c[1..]); }
  }

  lemma SegmentsOrdered(a: Segment, b: Segment)
    ensures CompareSegments(b, a) == Flip(CompareSegments(a, b))
    ensures CompareSegments(a, b) == Equal <==> a == b
  {
    if a.Field? && b.Field? { NamesOrdered(a.name, b.name); }
  }

  lemma SegmentsTransitive(a: Segment, b: Segment, c: Segment)
    requires CompareSegments(a, b) != Greater && CompareSegments(b, c) != Greater
    ensures CompareSegments(a, c) != Greater
    ensures CompareSegments(a, b) == Less || CompareSegments(b, c) == Less ==> CompareSegments(a, c) == Less
  {
    if a.Field? && b.Field? && c.Field? { NamesTransitive(a.name, b.name, c.name); }
  }

  lemma {:induction false} PathsOrdered(a: Path, b: Path)
    ensures ComparePaths(b, a) == Flip(ComparePaths(a, b))
    ensures ComparePaths(a, b) == Equal <==> a == b
    decreases |a|
  {
    if a != [] && b != [] {
      SegmentsOrdered(a[0], b[0]);
      PathsOrdered(a[1..], b[1..]);
      assert a == [a[0]] + a[1..] && b == [b[0]] + b[1..];
    }
  }

  predicate LessEqual(a: Path, b: Path) {
    ComparePaths(a, b) != Greater
  }

  lemma {:induction false} PathsTransitive(a: Path, b: Path, c: Path)
    requires LessEqual(a, b) && LessEqual(b, c)
    ensures LessEqual(a, c)
    decreases |a|
  {
    if a != [] && b != [] && c != [] {
      SegmentsOrdered(a[0], b[0]);
      SegmentsOrdered(b[0], c[0]);
      SegmentsTransitive(a[0], b[0], c[0]);
      if a[0] == b[0] == c[0] { PathsTransitive(a[1..], b[1..], c[1..]); }
    }
  }

  /** Everything sorted between a path and one of its extensions is an extension too. */
  lemma {:induction false} PrefixSqueeze(a: Path, b: Path, c: Path)
    requires IsPrefix(a, c) && LessEqual(a, b) && LessEqual(b, c)
    ensures IsPrefix(a, b)
    decreases |a|
  {
    if a != [] {
      assert c[..|a|][0] == a[0];
      SegmentsOrdered(a[0], b[0]);
      SegmentsOrdered(b[0], c[0]);
      assert c[1..][..|a| - 1] == c[..|a|][1..];
      PrefixSqueeze(a[1..], b[1..], c[1..]);
      assert b[..|a|] == [b[0]] + b[1..][..|a| - 1];
    }
  }

  lemma {:induction false} PrefixSortsFirst(a: Path, c: Path)
    requires IsPrefix(a, c)
    ensures LessEqual(a, c)
    decreases |a|
  {
    if a != [] {
      assert c[..|a|][0] == a[0];
      SegmentsOrdered(a[0], c[0]);
      assert c[1..][..|a| - 1] == c[..|a|][1..];
      PrefixSortsFirst(a[1..], c[1..]);
    }
  }

  // ---------------------------------------------------------------------------
  // Canonical lists of claims
  // ---------------------------------------------------------------------------

  /** `compare_claims`: by path, then by type id. */
  predicate InOrder(a: Claim, b: Claim) {
    var c := ComparePaths(a.path, b.path);
    c == Less || (c == Equal && CompareNames(a.typeId, b.typeId) != Greater)
  }

  lemma ClaimsOrdered(a: Claim, b: Claim)
    ensures InOrder(a, b) || InOrder(b, a)
    ensures InOrder(a, b) && InOrder(b, a) ==> a == b
    ensures InOrder(a, b) ==> LessEqual(a.path, b.path)
    ensures InOrder(a, a)
  {
    PathsOrdered(a.path, b.path);
    PathsOrdered(a.path, a.path);
    NamesOrdered(a.typeId, b.typeId);
    NamesOrdered(a.typeId, a.typeId);
  }

  lemma ClaimsTransitive(a: Claim, b: Claim, c: Claim)
    requires InOrder(a, b) && InOrder(b, c)
    ensures InOrder(a, c)
  {
    PathsTransitive(a.path, b.path, c.path);
    PathsOrdered(a.path, b.path);
    PathsOrdered(b.path, c.path);
    PathsOrdered(a.path, c.path);
    if a.path == b.path == c.path { NamesTransitive(a.typeId, b.typeId, c.typeId); }
  }

  ghost predicate Sorted(claims: seq<Claim>) {
    forall i, j :: 0 <= i <= j < |claims| ==> InOrder(claims[i], claims[j])
  }

  /** No path is a prefix of, or equal to, another one in the list. */
  ghost predicate PrefixFree(claims: seq<Claim>) {
    forall i, j :: 0 <= i < |claims| && 0 <= j < |claims| && i != j ==> !IsPrefix(claims[i].path, claims[j].path)
  }

  ghost predicate NeighboursApart(claims: seq<Claim>) {
    forall i :: 0 <= i < |claims| - 1 ==> !IsPrefix(claims[i].path, claims[i + 1].path)
  }

  /** In a sorted list, an overlap anywhere shows up between neighbours. */
  lemma NeighboursSuffice(claims: seq<Claim>)
    requires Sorted(claims)
    ensures NeighboursApart(claims) <==> PrefixFree(claims)
  {
    if NeighboursApart(claims) {
      forall i, j | 0 <= i < |claims| && 0 <= j < |claims| && i != j ensures !IsPrefix(claims[i].path, claims[j].path) {
        if IsPrefix(claims[i].path, claims[j].path) {
          PrefixSortsFirst(claims[i].path, claims[j].path);
          if i > j {
            PathsOrdered(claims[i].path, claims[j].path);
          }
          var lo, hi := if i < j then i else j, if i < j then j else i;
          PrefixSqueeze(claims[lo].path, claims[lo + 1].path, claims[hi].path);
        }
      }
    }
  }

  /** A list has only one sorted arrangement, so the canonical list does not depend on the input order. */
  lemma {:induction false} SortedUnique(a: seq<Claim>, b: seq<Claim>)
    requires Sorted(a) && Sorted(b) && multiset(a) == multiset(b)
    ensures a == b
    decreases |a|
  {
    assert |a| == |multiset(a)| == |multiset(b)| == |b|;
    if a != [] {
      SplitHead(a);
      SplitHead(b);
      ClaimsOrdered(a[0], b[0]);
      SortedUnique(a[1..], b[1..]);
    }
  }

  lemma SplitHead(a: seq<Claim>)
    requires a != []
    ensures a == [a[0]] + a[1..] && a[0] in multiset(a) && multiset(a[1..]) == multiset(a) - multiset{a[0]}
    ensures Sorted(a) ==> Sorted(a[1..])
  {
    assert a == [a[0]] + a[1..];
    assert multiset(a) == multiset{a[0]} + multiset(a[1..]);
  }

  /** Two places of a list are two places of every rearrangement. */
  lemma PairMoves(a: seq<Claim>, b: seq<Claim>, i: nat, j: nat) returns (k: nat, l: nat)
    requires multiset(a) == multiset(b) && i < |a| && j < |a| && i != j
    ensures k < |b| && l < |b| && k != l && b[k] == a[i] && b[l] == a[j]
  {
    if a[i] == a[j] {
      TwiceMeansTwice(a, i, j);
      k, l := FindTwice(b, a[i]);
    } else {
      assert a[i] in multiset(b) && a[j] in multiset(b);
      k :| k < |b| && b[k] == a[i];
      l :| l < |b| && b[l] == a[j];
    }
  }

  lemma PermutationKeepsPrefixFree(a: seq<Claim>, b: seq<Claim>)
    requires multiset(a) == multiset(b) && PrefixFree(a)
    ensures PrefixFree(b)
  {
    forall i, j | 0 <= i < |b| && 0 <= j < |b| && i != j ensures !IsPrefix(b[i].path, b[j].path) {
      var k, l := PairMoves(b, a, i, j);
    }
  }

  lemma TwiceMeansTwice(s: seq<Claim>, i: nat, j: nat)
    requires i < |s| && j < |s| && i != j && s[i] == s[j]
    ensures multiset(s)[s[i]] >= 2
  {
    var lo, hi := if i < j then i else j, if i < j then j else i;
    assert s == s[..lo] + [s[lo]] + s[lo + 1..hi] + [s[hi]] + s[hi + 1..];
  }

  lemma FindTwice(s: seq<Claim>, x: Claim) returns (p: nat, q: nat)
    requires multiset(s)[x] >= 2
    ensures p < |s| && q < |s| && p != q && s[p] == x && s[q] == x
  {
    assert x in multiset(s);
    p :| p < |s| && s[p] == x;
    var rest := s[..p] + s[p + 1..];
    assert s == s[..p] + [s[p]] + s[p + 1..];
    assert multiset(rest)[x] >= 1;
    var k: nat :| k < |rest| && rest[k] == x;
    q := if k < p then k else k + 1;
  }

  // ---------------------------------------------------------------------------
  // Canonicalization
  // ---------------------------------------------------------------------------

  /** The position at which `x` keeps a sorted list sorted. */
  function InsertAt(sorted: seq<Claim>, x: Claim): (i: nat)
    ensures i <= |sorted|
    ensures forall k :: 0 <= k < i ==> InOrder(sorted[k], x)
    ensures i < |sorted| ==> !InOrder(sorted[i], x)
  {
    if sorted == [] || !InOrder(sorted[0], x) then 0 else 1 + InsertAt(sorted[1..], x)
  }

  function Insert(sorted: seq<Claim>, x: Claim): seq<Claim> {
    var i := InsertAt(sorted, x);
    sorted[..i] + [x] + sorted[i..]
  }

  lemma InsertKeepsElements(sorted: seq<Claim>, x: Claim)
    ensures multiset(Insert(sorted, x)) == multiset(sorted) + multiset{x}
  {
    var i := InsertAt(sorted, x);
    assert sorted == sorted[..i] + sorted[i..];
  }

  lemma InsertedComesFirst(sorted: seq<Claim>, x: Claim, k: nat)
    requires Sorted(sorted) && InsertAt(sorted, x) <= k < |sorted|
    ensures InOrder(x, sorted[k])
  {
    var i := InsertAt(sorted, x);
    ClaimsOrdered(sorted[i], x);
    ClaimsTransitive(x, sorted[i], sorted[k]);
  }

  lemma InsertKeepsSorted(sorted: seq<Claim>, x: Claim)
    requires Sorted(sorted)
    ensures Sorted(Insert(sorted, x))
  {
    var i, r := InsertAt(sorted, x), Insert(sorted, x);
    forall a, b | 0 <= a <= b < |r| ensures InOrder(r[a], r[b]) {
      if a == i && b == i {
        ClaimsOrdered(x, x);
      } else if a == i {
        InsertedComesFirst(sorted, x, b - 1);
      } else if b != i {
        assert InOrder(sorted[if a < i then a else a - 1], sorted[if b < i then b else b - 1]);
      }
    }
  }

  method SortClaims(claims: seq<Claim>) returns (r: seq<Claim>)
    ensures Sorted(r) && multiset(r) == multiset(claims)
  {
    r := [];
    for n := 0 to |claims|
      invariant Sorted(r) && multiset(r) == multiset(claims[..n])
    {
      InsertKeepsSorted(r, claims[n]);
      InsertKeepsElements(r, claims[n]);
      r := Insert(r, claims[n]);
      assert claims[..n + 1] == claims[..n] + [claims[n]];
    }
    assert claims[..|claims|] == claims;
  }

  datatype ClaimError = Duplicate | Overlap

  /** Two entries claim the same path, or one claims a path strictly inside another's. */
  ghost predicate Explains(error: ClaimError, claims: seq<Claim>) {
    exists i, j :: 0 <= i < |claims| && 0 <= j < |claims| && i != j && IsPrefix(claims[i].path, claims[j].path)
                   && (error.Duplicate? <==> claims[i].path == claims[j].path)
  }

  lemma NeighboursExplain(sorted: seq<Claim>, claims: seq<Claim>, i: nat, error: ClaimError)
    requires multiset(sorted) == multiset(claims) && i + 1 < |sorted| && IsPrefix(sorted[i].path, sorted[i + 1].path)
    requires error.Duplicate? <==> sorted[i].path == sorted[i + 1].path
    ensures Explains(error, claims)
  {
    var k, l := PairMoves(sorted, claims, i, i + 1);
    assert IsPrefix(claims[k].path, claims[l].path);
  }

  /** `canonicalize_claims`: accepted exactly when nothing overlaps anywhere in the input. */
  method CanonicalizeClaims(claims: seq<Claim>) returns (r: Result<seq<Claim>, ClaimError>)
    ensures r.Ok? <==> PrefixFree(claims)
    ensures r.Err? ==> Explains(r.error, claims)
    ensures r.Ok? ==> Sorted(r.value) && multiset(r.value) == multiset(claims) && PrefixFree(r.value)
    ensures r.Ok? ==> forall other :: Sorted(other) && multiset(other) == multiset(claims) ==> r.value == other
  {
    var sorted := SortClaims(claims);
    NeighboursSuffice(sorted);
    if PrefixFree(claims) { PermutationKeepsPrefixFree(claims, sorted); }
    if PrefixFree(sorted) { PermutationKeepsPrefixFree(sorted, claims); }
    forall other | Sorted(other) && multiset(other) == multiset(claims) ensures sorted == other {
      SortedUnique(sorted, other);
    }
    var i := 0;
    while i + 1 < |sorted|
      invariant forall k :: 0 <= k < i && k + 1 < |sorted| ==> !IsPrefix(sorted[k].path, sorted[k + 1].path)
    {
      if sorted[i].path == sorted[i + 1].path {
        NeighboursExplain(sorted, claims, i, Duplicate);
        return Err(Duplicate);
      }
      if IsPrefix(sorted[i].path, sorted[i + 1].path) {
        NeighboursExplain(sorted, claims, i, Overlap);
        return Err(Overlap);
      }
      i := i + 1;
    }
    r := Ok(sorted);
  }

  function PathsOf(claims: seq<Claim>): seq<Path> {
    seq(|claims|, i requires 0 <= i < |claims| => claims[i].path)
  }

  function AsClaims(targets: seq<Path>): seq<Claim> {
    seq(|targets|, i requires 0 <= i < |targets| => Claim(targets[i], ""))
  }

  /** No target reaches into another. */
  ghost predicate Apart(targets: seq<Path>) {
    forall i, j :: 0 <= i < |targets| && 0 <= j < |targets| && i != j ==> !IsPrefix(targets[i], targets[j])
  }

  /** In the order of `compare_paths`. */
  ghost predicate InPathOrder(paths: seq<Path>) {
    forall i, j :: 0 <= i <= j < |paths| ==> LessEqual(paths[i], paths[j])
  }

  lemma SplitAt(claims: seq<Claim>, k: nat)
    requires k < |claims|
    ensures var rest := claims[..k] + claims[k + 1..];
            && multiset(claims) == multiset{claims[k]} + multiset(rest)
            && multiset(PathsOf(claims)) == multiset{claims[k].path} + multiset(PathsOf(rest))
  {
    var rest := claims[..k] + claims[k + 1..];
    assert claims == claims[..k] + [claims[k]] + claims[k + 1..];
    var paths := PathsOf(claims);
    assert paths == paths[..k] + [paths[k]] + paths[k + 1..];
    assert PathsOf(rest) == paths[..k] + paths[k + 1..];
  }

  /** Rearranging claims rearranges their paths. */
  lemma {:induction false} PathsRearranged(a: seq<Claim>, b: seq<Claim>)
    requires multiset(a) == multiset(b)
    ensures multiset(PathsOf(a)) == multiset(PathsOf(b))
    decreases |a|
  {
    if a == [] {
      assert |multiset(b)| == 0;
    } else {
      assert a[0] in multiset(b);
      var k: nat :| k < |b| && b[k] == a[0];
      SplitAt(a, 0);
      SplitAt(b, k);
      assert multiset(a[..0] + a[1..]) == multiset(a) - multiset{a[0]};
      PathsRearranged(a[..0] + a[1..], b[..k] + b[k + 1..]);
    }
  }

  /** `canonicalize_targets`, whose order is that of claims of no type. */
  method CanonicalizeTargets(targets: seq<Path>) returns (r: Result<seq<Path>, ClaimError>)
    ensures r.Ok? <==> Apart(targets)
    ensures r.Ok? ==> Apart(r.value) && InPathOrder(r.value) && multiset(r.value) == multiset(targets)
    ensures r.Ok? ==> forall other :: InPathOrder(other) && multiset(other) == multiset(targets) ==> r.value == other
  {
    assert forall i :: 0 <= i < |targets| ==> AsClaims(targets)[i].path == targets[i];
    var sorted := CanonicalizeClaims(AsClaims(targets));
    if sorted.Err? { return Err(sorted.error); }
    r := Ok(PathsOf(sorted.value));
    PathsRearranged(sorted.value, AsClaims(targets));
    assert PathsOf(AsClaims(targets)) == targets;
    forall other | InPathOrder(other) && multiset(other) == multiset(targets) ensures r.value == other {
      PathOrderUnique(r.value, other);
    }
  }

  lemma AsClaimsSorted(paths: seq<Path>)
    requires InPathOrder(paths)
    ensures Sorted(AsClaims(paths)) && PathsOf(AsClaims(paths)) == paths
  {
    forall i, j | 0 <= i <= j < |paths| ensures InOrder(AsClaims(paths)[i], AsClaims(paths)[j]) {
      assert LessEqual(paths[i], paths[j]);
      ClaimsOrdered(AsClaims(paths)[i], AsClaims(paths)[j]);
      PathsOrdered(paths[i], paths[j]);
    }
  }

  lemma {:induction false} AsClaimsRearranged(a: seq<Path>, b: seq<Path>)
    requires multiset(a) == multiset(b)
    ensures multiset(AsClaims(a)) == multiset(AsClaims(b))
    decreases |a|
  {
    if a == [] {
      assert |multiset(b)| == 0;
    } else {
      assert a[0] in multiset(b);
      var k: nat :| k < |b| && b[k] == a[0];
      TargetSplit(a, 0);
      TargetSplit(b, k);
      assert multiset(a[..0] + a[1..]) == multiset(a) - multiset{a[0]};
      AsClaimsRearranged(a[..0] + a[1..], b[..k] + b[k + 1..]);
    }
  }

  lemma TargetSplit(paths: seq<Path>, k: nat)
    requires k < |paths|
    ensures var rest := paths[..k] + paths[k + 1..];
            && multiset(paths) == multiset{paths[k]} + multiset(rest)
            && multiset(AsClaims(paths)) == multiset{Claim(paths[k], "")} + multiset(AsClaims(rest))
  {
    var rest := paths[..k] + paths[k + 1..];
    assert paths == paths[..k] + [paths[k]] + paths[k + 1..];
    var claims := AsClaims(paths);
    assert claims == claims[..k] + [claims[k]] + claims[k + 1..];
    assert AsClaims(rest) == claims[..k] + claims[k + 1..];
  }

  lemma PathOrderUnique(a: seq<Path>, b: seq<Path>)
    requires InPathOrder(a) && InPathOrder(b) && multiset(a) == multiset(b)
    ensures a == b
  {
    AsClaimsSorted(a);
    AsClaimsSorted(b);
    AsClaimsRearranged(a, b);
    SortedUnique(AsClaims(a), AsClaims(b));
  }
}
