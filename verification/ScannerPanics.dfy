/** Exactly which payloads make the scan slice backwards. */
module ScannerPanics {
  import opened Prelude
  import opened Scanner

  // ---------------------------------------------------------------------------
  // The condition, in terms of the payload
  // ---------------------------------------------------------------------------

  /** What stands between the brace nearest before `m` and the brace that closes it. */
  function EnvelopeBefore(s: seq<byte>, m: nat): Option<seq<byte>>
    requires m <= |s|
  {
    var start := LastOpen(s, m);
    if start.None? || BraceEnd(s, start.value, 0).None? then None
    else Some(s[start.value..BraceEnd(s, start.value, 0).value])
  }

  predicate Parses(o: Opener, s: seq<byte>, m: nat)
    requires m <= |s|
  {
    EnvelopeBefore(s, m).Some? ==> o.parses(EnvelopeBefore(s, m).value)
  }

  predicate Decrypts(o: Opener, s: seq<byte>, m: nat)
    requires m <= |s|
  {
    EnvelopeBefore(s, m).Some? ==> o.decrypt(EnvelopeBefore(s, m).value).Some?
  }

  /** Where the text goes on behind the marker at `m`: past its envelope, or past the marker if no brace opened yet. */
  function Behind(s: seq<byte>, marker: seq<byte>, m: nat): Option<nat>
    requires m <= |s|
  {
    var start := LastOpen(s, m);
    if start.None? then Some(m + |marker|) else BraceEnd(s, start.value, 0)
  }

  /** A marker that no earlier exposed marker covers with its envelope. */
  ghost predicate Exposed(s: seq<byte>, marker: seq<byte>, m: nat)
    decreases m
  {
    && OccursAt(s, marker, m)
    && forall l: nat :: l < m && OccursAt(s, marker, l) && Exposed(s, marker, l) ==>
         Behind(s, marker, l).Some? && Behind(s, marker, l).value <= m
  }

  /** The brace nearest before `m` is closed before `m`. */
  ghost predicate Escapes(s: seq<byte>, m: nat) {
    m <= |s| && LastOpen(s, m).Some? && exists k :: LastOpen(s, m).value < k < m && s[k] == CLOSE
  }

  /** That brace already lies behind an earlier exposed marker. */
  ghost predicate Shadowed(s: seq<byte>, marker: seq<byte>, m: nat)
    requires m <= |s| && LastOpen(s, m).Some?
  {
    exists l: nat :: l < m && Exposed(s, marker, l) && Behind(s, marker, l).Some?
                     && Behind(s, marker, l).value > LastOpen(s, m).value
  }

  /** The marker at `m` is exposed, stands outside the braces before it, and nothing up to it fails to open. */
  ghost predicate PanicsAt(o: Opener, s: seq<byte>, marker: seq<byte>, m: nat) {
    && Exposed(s, marker, m) && Escapes(s, m)
    && (forall l: nat :: l < m && Exposed(s, marker, l) ==> Parses(o, s, l) && Decrypts(o, s, l))
    && Parses(o, s, m) && (Decrypts(o, s, m) || Shadowed(s, marker, m))
  }

  // ---------------------------------------------------------------------------
  // What the scan has done when it reaches a position
  // ---------------------------------------------------------------------------

  /** The exposed markers before `position` have been opened, and `last` is the one that led there. */
  ghost predicate Reached(o: Opener, s: seq<byte>, marker: seq<byte>, position: nat, last: Option<nat>) {
    && position <= |s|
    && (forall l: nat :: l < position && Exposed(s, marker, l) ==>
          Behind(s, marker, l).Some? && Behind(s, marker, l).value <= position && Parses(o, s, l) && Decrypts(o, s, l))
    && (last.None? ==> position == 0)
    && (last.Some? ==>
          && Exposed(s, marker, last.value) && Behind(s, marker, last.value) == Some(position)
          && Parses(o, s, last.value) && Decrypts(o, s, last.value)
          && forall i :: position <= i < last.value ==> !OccursAt(s, marker, i))
  }

  lemma NextIsExposed(o: Opener, s: seq<byte>, marker: seq<byte>, position: nat, last: Option<nat>, found: nat)
    requires Reached(o, s, marker, position, last) && FirstAt(s, marker, position) == Some(found)
    ensures Exposed(s, marker, found)
    ensures forall l: nat :: l < found && Exposed(s, marker, l) ==> l < position
  {
  }

  lemma PanicLooksBack(o: Opener, s: seq<byte>, marker: seq<byte>, position: nat, found: nat)
    requires marker != [] && position <= |s| && FirstAt(s, marker, position) == Some(found)
    requires TurnAt(o, marker, s, position) == Fail(Panic)
    ensures LastOpen(s, found).Some? && LastOpen(s, found).value < position && Parses(o, s, found)
  {
  }

  /** A brace behind the position reached is closed by then, and shadowed by the marker that led there. */
  lemma OpenBehindEscapes(
    o: Opener, s: seq<byte>, marker: seq<byte>, position: nat, last: Option<nat>, found: nat, start: nat)
    requires BraceFree(marker) && Reached(o, s, marker, position, last) && position <= found <= |s|
    requires LastOpen(s, found) == Some(start) && start < position
    ensures Escapes(s, found) && (last.value < found ==> Shadowed(s, marker, found))
  {
    assert s[position - 1] == CLOSE && start < position - 1 < found;
  }

  lemma TurnPanics(o: Opener, s: seq<byte>, marker: seq<byte>, position: nat, last: Option<nat>, found: nat)
    requires marker != [] && BraceFree(marker) && Reached(o, s, marker, position, last)
    requires FirstAt(s, marker, position) == Some(found) && TurnAt(o, marker, s, position) == Fail(Panic)
    ensures PanicsAt(o, s, marker, found)
  {
    NextIsExposed(o, s, marker, position, last, found);
    PanicLooksBack(o, s, marker, position, found);
    OpenBehindEscapes(o, s, marker, position, last, found, LastOpen(s, found).value);
  }

  lemma TurnOpens(o: Opener, s: seq<byte>, marker: seq<byte>, position: nat, found: nat)
    requires marker != [] && position <= |s|
    requires FirstAt(s, marker, position) == Some(found) && TurnAt(o, marker, s, position).Go?
    ensures Behind(s, marker, found) == Some(TurnAt(o, marker, s, position).position)
    ensures Parses(o, s, found) && Decrypts(o, s, found)
  {
  }

  lemma TurnReaches(o: Opener, s: seq<byte>, marker: seq<byte>, position: nat, last: Option<nat>, found: nat)
    requires marker != [] && Reached(o, s, marker, position, last)
    requires FirstAt(s, marker, position) == Some(found) && TurnAt(o, marker, s, position).Go?
    ensures Reached(o, s, marker, TurnAt(o, marker, s, position).position, Some(found))
  {
    NextIsExposed(o, s, marker, position, last, found);
    TurnOpens(o, s, marker, position, found);
    CoverageKept(o, s, marker, position, last, found, TurnAt(o, marker, s, position).position);
  }

  lemma CoverageKept(
    o: Opener, s: seq<byte>, marker: seq<byte>, position: nat, last: Option<nat>, found: nat, next: nat)
    requires Reached(o, s, marker, position, last) && FirstAt(s, marker, position) == Some(found)
    requires Exposed(s, marker, found) && Behind(s, marker, found) == Some(next) && position <= next <= |s|
    requires Parses(o, s, found) && Decrypts(o, s, found)
    ensures Reached(o, s, marker, next, Some(found))
  {
    forall l: nat | l < next && Exposed(s, marker, l)
      ensures Behind(s, marker, l).Some? && Behind(s, marker, l).value <= next && Parses(o, s, l) && Decrypts(o, s, l)
    {
      assert l < position || l == found;
    }
  }

  lemma {:induction false} PanicHasAPlace(
    o: Opener, s: seq<byte>, marker: seq<byte>, position: nat, last: Option<nat>, output: seq<byte>) returns (m: nat)
    requires marker != [] && BraceFree(marker) && Reached(o, s, marker, position, last)
    requires Scan(o, marker, s, position, output) == Err(Panic)
    ensures PanicsAt(o, s, marker, m)
    decreases |s| - position
  {
    var t := TurnAt(o, marker, s, position);
    var found := FirstAt(s, marker, position).value;
    if t.Go? {
      TurnReaches(o, s, marker, position, last, found);
      m := PanicHasAPlace(o, s, marker, t.position, Some(found), output + t.added);
    } else {
      TurnPanics(o, s, marker, position, last, found);
      m := found;
    }
  }

  // ---------------------------------------------------------------------------
  // The scan reaches every such place
  // ---------------------------------------------------------------------------

  lemma {:induction false} ClosesBy(s: seq<byte>, i: nat, close: nat)
    requires i <= close < |s| && s[close] == CLOSE && forall j :: i <= j < close ==> s[j] != OPEN
    ensures BraceEnd(s, i, 1).Some? && BraceEnd(s, i, 1).value <= close + 1
    decreases close - i
  {
    if s[i] != CLOSE { ClosesBy(s, i + 1, close); }
  }

  lemma EscapedIsClosed(s: seq<byte>, marker: seq<byte>, m: nat)
    requires Escapes(s, m)
    ensures Behind(s, marker, m).Some? && Behind(s, marker, m).value <= m
  {
    var start := LastOpen(s, m).value;
    var k :| start < k < m && s[k] == CLOSE;
    ClosesBy(s, start + 1, k);
  }

  lemma ClosedTurn(o: Opener, s: seq<byte>, marker: seq<byte>, position: nat, found: nat)
    requires marker != [] && position <= |s| && FirstAt(s, marker, position) == Some(found)
    requires Behind(s, marker, found).Some? && Parses(o, s, found)
    requires Decrypts(o, s, found) || (LastOpen(s, found).Some? && LastOpen(s, found).value < position)
    ensures var t := TurnAt(o, marker, s, position);
            t == Fail(Panic) || (t.Go? && Some(t.position) == Behind(s, marker, found))
  {
  }

  lemma ShadowIsBehind(o: Opener, s: seq<byte>, marker: seq<byte>, position: nat, last: Option<nat>, m: nat)
    requires Reached(o, s, marker, position, last) && FirstAt(s, marker, position) == Some(m)
    requires LastOpen(s, m).Some? && Shadowed(s, marker, m)
    ensures LastOpen(s, m).value < position
  {
    NextIsExposed(o, s, marker, position, last, m);
  }

  /** Until the place is reached, every turn panics or goes on to a position not beyond it. */
  lemma TurnTowards(o: Opener, s: seq<byte>, marker: seq<byte>, position: nat, last: Option<nat>, m: nat)
    requires marker != [] && Reached(o, s, marker, position, last) && PanicsAt(o, s, marker, m) && position <= m
    ensures var t := TurnAt(o, marker, s, position);
            FirstAt(s, marker, position).Some? && (t == Fail(Panic) || (t.Go? && t.position <= m))
  {
    var found := FirstAt(s, marker, position).value;
    if found < m {
      NextIsExposed(o, s, marker, position, last, found);
    } else {
      EscapedIsClosed(s, marker, m);
      if !Decrypts(o, s, m) { ShadowIsBehind(o, s, marker, position, last, m); }
    }
    ClosedTurn(o, s, marker, position, found);
  }

  lemma {:induction false} PlacePanics(
    o: Opener, s: seq<byte>, marker: seq<byte>, position: nat, last: Option<nat>, output: seq<byte>, m: nat)
    requires marker != [] && Reached(o, s, marker, position, last) && PanicsAt(o, s, marker, m) && position <= m
    ensures Scan(o, marker, s, position, output) == Err(Panic)
    decreases |s| - position
  {
    TurnTowards(o, s, marker, position, last, m);
    var t := TurnAt(o, marker, s, position);
    if t.Go? {
      var found := FirstAt(s, marker, position).value;
      TurnReaches(o, s, marker, position, last, found);
      ScanGoes(o, marker, s, position, output, t.position, t.added);
      PlacePanics(o, s, marker, t.position, Some(found), output + t.added, m);
    }
  }

  /**
   For every payload and every opener: the scan panics if and only if some exposed marker stands
   outside the braces before it and everything up to it opens.
   */
  lemma PanicsExactly(o: Opener, marker: seq<byte>, s: seq<byte>)
    requires marker != [] && BraceFree(marker)
    ensures Scan(o, marker, s, 0, []) == Err(Panic) <==> exists m :: PanicsAt(o, s, marker, m)
  {
    assert Reached(o, s, marker, 0, None);
    if Scan(o, marker, s, 0, []) == Err(Panic) {
      var m := PanicHasAPlace(o, s, marker, 0, None, []);
    }
    if exists m :: PanicsAt(o, s, marker, m) {
      var m :| PanicsAt(o, s, marker, m);
      PlacePanics(o, s, marker, 0, None, [], m);
    }
  }

  // ---------------------------------------------------------------------------
  // Two readings
  // ---------------------------------------------------------------------------

  /** No marker stands outside the braces before it. */
  ghost predicate OwnBraces(s: seq<byte>, marker: seq<byte>) {
    forall m :: OccursAt(s, marker, m) ==> !Escapes(s, m)
  }

  /** Markers within braces of their own never make the scan panic, whatever the envelopes hold. */
  lemma OwnBracesNeverPanic(o: Opener, marker: seq<byte>, s: seq<byte>)
    requires marker != [] && BraceFree(marker) && OwnBraces(s, marker)
    ensures Scan(o, marker, s, 0, []) != Err(Panic)
  {
    PanicsExactly(o, marker, s);
  }

  /** The brace nearest before a marker closes before another one opens. */
  ghost predicate FlatAtMarkers(s: seq<byte>, marker: seq<byte>) {
    forall m :: OccursAt(s, marker, m) && LastOpen(s, m).Some? ==> FlatFrom(s, LastOpen(s, m).value)
  }

  ghost predicate FlatFrom(s: seq<byte>, start: nat) {
    forall x :: start < x < |s| && s[x] == OPEN ==> exists y :: start < y < x && s[y] == CLOSE
  }

  /** Whatever envelope stands before a marker parses and decrypts. */
  ghost predicate AllOpen(o: Opener, s: seq<byte>, marker: seq<byte>) {
    forall m :: OccursAt(s, marker, m) ==> Parses(o, s, m) && Decrypts(o, s, m)
  }

  /** Among flat envelopes, a marker outside its braces is covered by no envelope before it. */
  lemma EscapedIsUncovered(s: seq<byte>, marker: seq<byte>, l: nat, m: nat)
    requires BraceFree(marker) && FlatAtMarkers(s, marker)
    requires l < m && OccursAt(s, marker, l) && OccursAt(s, marker, m) && Escapes(s, m)
    ensures Behind(s, marker, l).Some? && Behind(s, marker, l).value <= m
  {
    var start := LastOpen(s, m).value;
    var k :| start < k < m && s[k] == CLOSE;
    if LastOpen(s, l).Some? {
      var b := LastOpen(s, l).value;
      assert FlatFrom(s, b) && b <= start;
      var y := if b == start then k else FirstCloseAfter(s, b, start);
      ClosedByFirst(s, b, y);
    }
  }

  ghost function FirstCloseAfter(s: seq<byte>, start: nat, x: nat): (y: nat)
    requires FlatFrom(s, start) && start < x < |s| && s[x] == OPEN
    ensures start < y < x && s[y] == CLOSE
  {
    var y :| start < y < x && s[y] == CLOSE;
    y
  }

  lemma {:induction false} ClosedByFirst(s: seq<byte>, start: nat, y: nat)
    requires start < y < |s| && s[start] == OPEN && s[y] == CLOSE && FlatFrom(s, start)
    ensures BraceEnd(s, start, 0).Some? && BraceEnd(s, start, 0).value <= y + 1
    decreases y
  {
    if j :| start < j < y && s[j] == OPEN {
      ClosedByFirst(s, start, FirstCloseAfter(s, start, j));
    } else {
      ClosesBy(s, start + 1, y);
    }
  }

  /** When the envelopes before markers are flat and open, the scan panics exactly if a marker is outside its braces. */
  lemma FlatPanicsExactly(o: Opener, marker: seq<byte>, s: seq<byte>)
    requires marker != [] && BraceFree(marker) && AllOpen(o, s, marker) && FlatAtMarkers(s, marker)
    ensures Scan(o, marker, s, 0, []) == Err(Panic) <==> !OwnBraces(s, marker)
  {
    PanicsExactly(o, marker, s);
    if !OwnBraces(s, marker) {
      var m :| OccursAt(s, marker, m) && Escapes(s, m);
      forall l: nat | l < m && OccursAt(s, marker, l) && Exposed(s, marker, l)
        ensures Behind(s, marker, l).Some? && Behind(s, marker, l).value <= m
      {
        EscapedIsUncovered(s, marker, l, m);
      }
      assert PanicsAt(o, s, marker, m);
    }
  }
}
