/** Finding envelopes in a byte stream and replacing each by its plaintext. */
module Scanner {
  import opened Prelude

  const OPEN: byte := 123
  const CLOSE: byte := 125

  /** What becomes of the bytes of one envelope: parsed as JSON or not, decrypted or not. */
  datatype Opener = Opener(parses: seq<byte> -> bool, decrypt: seq<byte> -> Option<seq<byte>>)

  /** `Panic` is the slice whose end lies before its start. */
  datatype Failure = Malformed | Undecryptable | Panic

  type Outcome = Result<seq<byte>, Failure>

  // ---------------------------------------------------------------------------
  // Searching
  // ---------------------------------------------------------------------------

  predicate OccursAt(s: seq<byte>, needle: seq<byte>, i: nat) {
    i + |needle| <= |s| && s[i..i + |needle|] == needle
  }

  ghost predicate Free(s: seq<byte>, needle: seq<byte>) {
    forall i :: !OccursAt(s, needle, i)
  }

  /** The first occurrence from `from` on. */
  function FirstAt(s: seq<byte>, needle: seq<byte>, from: nat): (r: Option<nat>)
    ensures r.Some? ==> from <= r.value && OccursAt(s, needle, r.value)
    ensures r.Some? ==> forall i :: from <= i < r.value ==> !OccursAt(s, needle, i)
    ensures r.None? ==> forall i :: from <= i ==> !OccursAt(s, needle, i)
    decreases |s| - from
  {
    if from + |needle| > |s| then None
    else if s[from..from + |needle|] == needle then Some(from)
    else FirstAt(s, needle, from + 1)
  }

  /** The last opening brace before `end`. */
  function LastOpen(s: seq<byte>, end: nat): (r: Option<nat>)
    requires end <= |s|
    ensures r.Some? ==> r.value < end && s[r.value] == OPEN && forall i :: r.value < i < end ==> s[i] != OPEN
    ensures r.None? ==> forall i :: 0 <= i < end ==> s[i] != OPEN
  {
    if end == 0 then None else if s[end - 1] == OPEN then Some(end - 1) else LastOpen(s, end - 1)
  }

  /** Just past the brace that closes the `depth` braces open before `i`. */
  function BraceEnd(s: seq<byte>, i: nat, depth: nat): (r: Option<nat>)
    requires i <= |s|
    ensures r.Some? ==> i < r.value <= |s| && s[r.value - 1] == CLOSE
    decreases |s| - i
  {
    if i == |s| then None
    else if s[i] == OPEN then BraceEnd(s, i + 1, depth + 1)
    else if s[i] != CLOSE then BraceEnd(s, i + 1, depth)
    else if depth == 0 then None
    else if depth == 1 then Some(i + 1)
    else BraceEnd(s, i + 1, depth - 1)
  }

  /** Braces opened minus braces closed from `i` up to `e`. */
  function Level(s: seq<byte>, i: nat, e: nat): int
    requires i <= e <= |s|
    decreases e - i
  {
    if i == e then 0
    else (if s[i] == OPEN then 1 else if s[i] == CLOSE then -1 else 0) + Level(s, i + 1, e)
  }

  /** Some of the braces are open at `k`, or none has come yet. */
  predicate Unsettled(s: seq<byte>, i: nat, depth: nat, k: nat)
    requires i <= k <= |s|
  {
    depth + Level(s, i, k) > 0 || (depth == 0 && forall x :: i <= x < k ==> s[x] != OPEN && s[x] != CLOSE)
  }

  /** With `depth` braces open before `i`, they balance just before `e` and at no earlier brace. */
  ghost predicate Balances(s: seq<byte>, i: nat, depth: nat, e: nat)
    requires i <= |s|
  {
    && i < e <= |s| && s[e - 1] == CLOSE && depth + Level(s, i, e) == 0
    && forall k :: i <= k < e ==> Unsettled(s, i, depth, k)
  }

  /** Reading one more byte moves the balance on, unless that byte settles it. */
  lemma BalanceMovesOn(s: seq<byte>, i: nat, depth: nat, depth': nat, e: nat)
    requires i < |s| && i + 1 < e <= |s|
    requires depth' == depth + Level(s, i, i + 1) && (s[i] == CLOSE ==> depth' > 0)
    ensures Balances(s, i, depth, e) <==> Balances(s, i + 1, depth', e)
  {
    var next := i + 1;
    assert Unsettled(s, i, depth, i) && Level(s, i, e) == Level(s, i, next) + Level(s, next, e);
    if Balances(s, i, depth, e) {
      forall k | next <= k < e ensures Unsettled(s, next, depth', k) { assert Unsettled(s, i, depth, k); }
    }
    if Balances(s, next, depth', e) {
      forall k | next <= k < e ensures Unsettled(s, i, depth, k) { assert Unsettled(s, next, depth', k); }
    }
  }

  /** The end found is exactly where the braces balance for the first time. */
  lemma {:induction false} BraceEndBalances(s: seq<byte>, i: nat, depth: nat, e: nat)
    requires i <= |s|
    ensures BraceEnd(s, i, depth) == Some(e) <==> Balances(s, i, depth, e)
    decreases |s| - i
  {
    if i < |s| && i + 1 < e <= |s| {
      var depth' := depth + Level(s, i, i + 1);
      if s[i] != CLOSE || depth' > 0 {
        BraceEndBalances(s, i + 1, depth', e);
        BalanceMovesOn(s, i, depth, depth', e);
      } else {
        assert !Unsettled(s, i, depth, i + 1);
      }
    }
  }

  /** `find_bytes`. */
  method FindBytes(s: seq<byte>, needle: seq<byte>, from: nat) returns (r: Option<nat>)
    requires from <= |s|
    ensures r == FirstAt(s, needle, from)
  {
    var i := from;
    while i + |needle| <= |s|
      invariant FirstAt(s, needle, i) == FirstAt(s, needle, from)
    {
      if s[i..i + |needle|] == needle { return Some(i); }
      i := i + 1;
    }
    r := None;
  }

  method FindLastOpen(s: seq<byte>, end: nat) returns (r: Option<nat>)
    requires end <= |s|
    ensures r == LastOpen(s, end)
  {
    var i: nat := end;
    while i > 0
      invariant i <= end && LastOpen(s, i) == LastOpen(s, end)
    {
      if s[i - 1] == OPEN { return Some(i - 1); }
      i := i - 1;
    }
    r := None;
  }

  /** `matching_brace_end`. */
  method MatchingBraceEnd(s: seq<byte>, start: nat) returns (r: Option<nat>)
    requires start <= |s|
    ensures r == BraceEnd(s, start, 0)
    ensures forall e: nat :: r == Some(e) <==> Balances(s, start, 0, e)
  {
    forall e: nat { BraceEndBalances(s, start, 0, e); }
    var depth: nat := 0;
    for i := start to |s|
      invariant BraceEnd(s, i, depth) == BraceEnd(s, start, 0)
    {
      if s[i] == OPEN {
        depth := depth + 1;
      } else if s[i] == CLOSE {
        if depth == 0 { return None; }
        depth := depth - 1;
        if depth == 0 { return Some(i + 1); }
      }
    }
    r := None;
  }

  // ---------------------------------------------------------------------------
  // Scanning
  // ---------------------------------------------------------------------------

  /** One turn: copy the rest and stop, fail, or go on from a later position. */
  datatype Turn = Stop | Fail(failure: Failure) | Go(position: nat, added: seq<byte>)

  function TurnAt(o: Opener, marker: seq<byte>, s: seq<byte>, position: nat): (t: Turn)
    requires marker != [] && position <= |s|
    ensures t.Go? ==> position < t.position <= |s|
  {
    var found := FirstAt(s, marker, position);
    if found.None? then Stop
    else
      var start := LastOpen(s, found.value);
      if start.None? then Go(found.value + |marker|, s[position..found.value + |marker|])
      else
        var end := BraceEnd(s, start.value, 0);
        if end.None? then Stop
        else if !o.parses(s[start.value..end.value]) then Fail(Malformed)
        else if start.value < position then Fail(Panic)
        else
          var plain := o.decrypt(s[start.value..end.value]);
          if plain.None? then Fail(Undecryptable) else Go(end.value, s[position..start.value] + plain.value)
  }

  /** Everything the scan does from `position` on. */
  function Scan(o: Opener, marker: seq<byte>, s: seq<byte>, position: nat, output: seq<byte>): Outcome
    requires marker != [] && position <= |s|
    decreases |s| - position
  {
    match TurnAt(o, marker, s, position)
    case Stop => Ok(output + s[position..])
    case Fail(failure) => Err(failure)
    case Go(next, added) => Scan(o, marker, s, next, output + added)
  }

  /** The body of the loop of `decrypt_payload`. */
  method TakeTurn(o: Opener, marker: seq<byte>, s: seq<byte>, position: nat) returns (t: Turn)
    requires marker != [] && position <= |s|
    ensures t == TurnAt(o, marker, s, position)
  {
    var found := FindBytes(s, marker, position);
    if found.None? { return Stop; }
    var start := FindLastOpen(s, found.value);
    if start.None? { return Go(found.value + |marker|, s[position..found.value + |marker|]); }
    var end := MatchingBraceEnd(s, start.value);
    if end.None? { return Stop; }
    var envelope := s[start.value..end.value];
    if !o.parses(envelope) { return Fail(Malformed); }
    if start.value < position { return Fail(Panic); }
    var plain := o.decrypt(envelope);
    if plain.None? { return Fail(Undecryptable); }
    t := Go(end.value, s[position..start.value] + plain.value);
  }

  /** `decrypt_payload`. */
  method DecryptPayload(o: Opener, marker: seq<byte>, s: seq<byte>) returns (r: Outcome)
    requires marker != []
    ensures r == Scan(o, marker, s, 0, [])
  {
    var position, output: seq<byte> := 0, [];
    while true
      invariant position <= |s| && Scan(o, marker, s, position, output) == Scan(o, marker, s, 0, [])
      decreases |s| - position
    {
      var t := TakeTurn(o, marker, s, position);
      match t {
        case Stop => return Ok(output + s[position..]);
        case Fail(failure) => return Err(failure);
        case Go(next, added) => position, output := next, output + added;
      }
    }
  }

  // ---------------------------------------------------------------------------
  // Text and flat envelopes in turn
  // ---------------------------------------------------------------------------

  /** Some text, then an envelope that holds no brace but its own two. */
  datatype Piece = Piece(text: seq<byte>, body: seq<byte>)

  function Envelope(body: seq<byte>): seq<byte> {
    [OPEN] + body + [CLOSE]
  }

  function Stream(pieces: seq<Piece>, tail: seq<byte>): seq<byte> {
    if pieces == [] then tail else pieces[0].text + Envelope(pieces[0].body) + Stream(pieces[1..], tail)
  }

  predicate BraceFree(s: seq<byte>) {
    forall i :: 0 <= i < |s| ==> s[i] != OPEN && s[i] != CLOSE
  }

  ghost predicate GoodPiece(p: Piece, marker: seq<byte>) {
    Free(p.text, marker) && BraceFree(p.body) && exists i :: OccursAt(p.body, marker, i)
  }

  ghost predicate Alternates(pieces: seq<Piece>, tail: seq<byte>, marker: seq<byte>) {
    && marker != [] && BraceFree(marker) && Free(tail, marker)
    && forall i :: 0 <= i < |pieces| ==> GoodPiece(pieces[i], marker)
  }

  /** The texts in order with the plaintexts between them, or the first envelope that does not open. */
  function Opened(o: Opener, pieces: seq<Piece>, tail: seq<byte>, output: seq<byte>): Outcome {
    if pieces == [] then Ok(output + tail)
    else
      var envelope := Envelope(pieces[0].body);
      if !o.parses(envelope) then Err(Malformed)
      else if o.decrypt(envelope).None? then Err(Undecryptable)
      else Opened(o, pieces[1..], tail, output + (pieces[0].text + o.decrypt(envelope).value))
  }

  /** The piece stands in `s` at `from`. */
  predicate Holds(s: seq<byte>, from: nat, p: Piece) {
    var start := from + |p.text|;
    var close := start + 1 + |p.body|;
    && close < |s| && s[from..start] == p.text
    && s[start] == OPEN && s[start + 1..close] == p.body && s[close] == CLOSE
  }

  lemma OccursInside(s: seq<byte>, from: nat, to: nat, needle: seq<byte>, i: nat)
    requires from <= to <= |s| && from <= i && i + |needle| <= to
    ensures OccursAt(s, needle, i) <==> OccursAt(s[from..to], needle, i - from)
  {
    SliceOfSlice(s, from, to, i, i + |needle|);
  }

  lemma SliceOfSlice(s: seq<byte>, a: nat, b: nat, c: nat, d: nat)
    requires a <= c <= d <= b <= |s|
    ensures s[a..b][c - a..d - a] == s[c..d]
  {
    forall k | 0 <= k < d - c ensures s[a..b][c - a..d - a][k] == s[c..d][k] {
      assert s[a..b][c - a + k] == s[c + k];
    }
  }

  /** The first marker after some marker-free text lies inside the next envelope. */
  lemma MarkerInEnvelope(s: seq<byte>, marker: seq<byte>, from: nat, p: Piece) returns (found: nat)
    requires marker != [] && BraceFree(marker) && GoodPiece(p, marker) && Holds(s, from, p)
    ensures FirstAt(s, marker, from) == Some(found)
    ensures var start := from + |p.text|; start < found && found + |marker| <= start + 1 + |p.body|
  {
    var j :| OccursAt(p.body, marker, j);
    MarkerOfBody(s, marker, from, p, j);
    found := FirstAt(s, marker, from).value;
    NotInText(s, marker, from, p, found);
  }

  lemma MarkerOfBody(s: seq<byte>, marker: seq<byte>, from: nat, p: Piece, j: nat)
    requires Holds(s, from, p) && OccursAt(p.body, marker, j)
    ensures OccursAt(s, marker, from + |p.text| + 1 + j)
  {
    var start := from + |p.text|;
    OccursInside(s, start + 1, start + 1 + |p.body|, marker, start + 1 + j);
  }

  lemma NotInText(s: seq<byte>, marker: seq<byte>, from: nat, p: Piece, found: nat)
    requires BraceFree(marker) && Free(p.text, marker) && Holds(s, from, p) && from <= found
    requires OccursAt(s, marker, found)
    ensures found > from + |p.text|
  {
    var start := from + |p.text|;
    if found + |marker| <= start { OccursInside(s, from, start, marker, found); }
  }

  lemma {:induction false} FlatEnd(s: seq<byte>, i: nat, close: nat)
    requires i <= close < |s| && s[close] == CLOSE && BraceFree(s[i..close])
    ensures BraceEnd(s, i, 1) == Some(close + 1)
    decreases close - i
  {
    if i < close {
      assert s[i] == s[i..close][0];
      assert s[i + 1..close] == s[i..close][1..];
      FlatEnd(s, i + 1, close);
    }
  }

  lemma ClosesAt(s: seq<byte>, from: nat, p: Piece, start: nat, end: nat)
    requires BraceFree(p.body) && Holds(s, from, p) && start == from + |p.text| && end == start + |p.body| + 2
    ensures BraceEnd(s, start, 0) == Some(end)
  {
    FlatEnd(s, start + 1, end - 1);
  }

  lemma EnvelopeAt(s: seq<byte>, from: nat, p: Piece, start: nat, end: nat)
    requires Holds(s, from, p) && start == from + |p.text| && end == start + |p.body| + 2
    ensures s[start..end] == Envelope(p.body)
  {
    assert s[start..end] == [s[start]] + s[start + 1..end - 1] + [s[end - 1]];
  }

  lemma NearestOpen(s: seq<byte>, from: nat, p: Piece, start: nat, found: nat)
    requires BraceFree(p.body) && Holds(s, from, p)
    requires start == from + |p.text| < found <= start + 1 + |p.body|
    ensures LastOpen(s, found) == Some(start)
  {
    forall i | start < i < found ensures s[i] != OPEN { assert s[i] == p.body[i - start - 1]; }
  }

  /** A turn whose marker and envelope have been located. */
  lemma TurnOver(o: Opener, marker: seq<byte>, s: seq<byte>, from: nat, found: nat, start: nat, end: nat)
    requires marker != [] && FirstAt(s, marker, from) == Some(found) && found <= |s| && from <= start <= end <= |s|
    requires LastOpen(s, found) == Some(start) && BraceEnd(s, start, 0) == Some(end)
    ensures var envelope := s[start..end];
            TurnAt(o, marker, s, from) ==
              if !o.parses(envelope) then Fail(Malformed)
              else if o.decrypt(envelope).None? then Fail(Undecryptable)
              else Go(end, s[from..start] + o.decrypt(envelope).value)
  {
  }

  /** One turn of the scan over text and envelope. */
  lemma OnePiece(o: Opener, marker: seq<byte>, s: seq<byte>, from: nat, p: Piece, end: nat)
    requires marker != [] && BraceFree(marker) && GoodPiece(p, marker) && Holds(s, from, p)
    requires end == from + |p.text| + |p.body| + 2
    ensures var envelope := Envelope(p.body);
            TurnAt(o, marker, s, from) ==
              if !o.parses(envelope) then Fail(Malformed)
              else if o.decrypt(envelope).None? then Fail(Undecryptable)
              else Go(end, p.text + o.decrypt(envelope).value)
  {
    var start := from + |p.text|;
    var found := MarkerInEnvelope(s, marker, from, p);
    NearestOpen(s, from, p, start, found);
    ClosesAt(s, from, p, start, end);
    EnvelopeAt(s, from, p, start, end);
    TurnOver(o, marker, s, from, found, start, end);
  }

  lemma PieceHolds(s: seq<byte>, from: nat, p: Piece, rest: seq<byte>)
    requires from <= |s| && s[from..] == p.text + Envelope(p.body) + rest
    ensures Holds(s, from, p) && s[from + |p.text| + |p.body| + 2..] == rest
  {
    var t, start, n := s[from..], |p.text|, |p.body|;
    assert t[..start] == p.text && t[start..start + n + 2] == Envelope(p.body) && t[start + n + 2..] == rest;
    assert t[start + 1..start + 1 + n] == t[start..start + n + 2][1..1 + n] == p.body;
    SliceOfSlice(s, from, |s|, from + start + 1, from + start + 1 + n);
    assert t[start] == Envelope(p.body)[0] && t[start + 1 + n] == Envelope(p.body)[1 + n];
  }

  lemma ScanGoes(o: Opener, marker: seq<byte>, s: seq<byte>, from: nat, output: seq<byte>, next: nat, added: seq<byte>)
    requires marker != [] && from <= |s| && next <= |s| && TurnAt(o, marker, s, from) == Go(next, added)
    ensures Scan(o, marker, s, from, output) == Scan(o, marker, s, next, output + added)
  {
  }

  /** Whatever braces the text holds, the scan opens every envelope in its place and copies the rest. */
  lemma {:induction false} ScanOpens(
    o: Opener, marker: seq<byte>, s: seq<byte>, from: nat, pieces: seq<Piece>, tail: seq<byte>, output: seq<byte>)
    requires Alternates(pieces, tail, marker) && from <= |s| && s[from..] == Stream(pieces, tail)
    ensures Scan(o, marker, s, from, output) == Opened(o, pieces, tail, output)
    decreases |pieces|
  {
    if pieces == [] {
      TailIsFree(s, from, marker);
    } else {
      var p := pieces[0];
      var envelope, end := Envelope(p.body), from + |p.text| + |p.body| + 2;
      PieceHolds(s, from, p, Stream(pieces[1..], tail));
      OnePiece(o, marker, s, from, p, end);
      if !o.parses(envelope) {
      } else if o.decrypt(envelope).None? {
      } else {
        var added := p.text + o.decrypt(envelope).value;
        ScanGoes(o, marker, s, from, output, end, added);
        ScanOpens(o, marker, s, end, pieces[1..], tail, output + added);
      }
    }
  }

  lemma TailIsFree(s: seq<byte>, from: nat, marker: seq<byte>)
    requires from <= |s| && Free(s[from..], marker)
    ensures FirstAt(s, marker, from).None?
  {
    assert s[from..] == s[from..|s|];
    var found := FirstAt(s, marker, from);
    if found.Some? { OccursInside(s, from, |s|, marker, found.value); }
  }

  /** The payload as a whole. */
  lemma DecryptsEveryEnvelope(o: Opener, marker: seq<byte>, pieces: seq<Piece>, tail: seq<byte>)
    requires Alternates(pieces, tail, marker)
    ensures Scan(o, marker, Stream(pieces, tail), 0, []) == Opened(o, pieces, tail, [])
  {
    assert Stream(pieces, tail)[0..] == Stream(pieces, tail);
    ScanOpens(o, marker, Stream(pieces, tail), 0, pieces, tail, []);
  }

  lemma OpensFirst(o: Opener, marker: seq<byte>, s: seq<byte>, p: Piece, position: nat, added: seq<byte>)
    requires marker != [] && BraceFree(marker) && GoodPiece(p, marker) && Holds(s, 0, p)
    requires o.parses(Envelope(p.body)) && o.decrypt(Envelope(p.body)).Some?
    requires position == |p.text| + |p.body| + 2 && added == p.text + o.decrypt(Envelope(p.body)).value
    ensures TurnAt(o, marker, s, 0) == Go(position, added)
  {
    OnePiece(o, marker, s, 0, p, position);
  }

  /** A marker that follows an envelope without a brace of its own stops the scan with a panic. */
  lemma BracelessMarkerPanics(o: Opener, marker: seq<byte>, s: seq<byte>, p: Piece, tail: seq<byte>)
    requires marker != [] && BraceFree(marker) && GoodPiece(p, marker)
    requires o.parses(Envelope(p.body)) && o.decrypt(Envelope(p.body)).Some?
    requires Holds(s, 0, p) && s[|p.text| + |p.body| + 2..] == marker + tail
    ensures Scan(o, marker, s, 0, []) == Err(Panic)
  {
    var position, added := |p.text| + |p.body| + 2, p.text + o.decrypt(Envelope(p.body)).value;
    OpensFirst(o, marker, s, p, position, added);
    PanicsAfter(o, marker, s, p, tail, position);
    ScanGoes(o, marker, s, 0, [], position, added);
  }

  lemma PanicsAfter(o: Opener, marker: seq<byte>, s: seq<byte>, p: Piece, tail: seq<byte>, position: nat)
    requires marker != [] && BraceFree(p.body) && Holds(s, 0, p) && o.parses(Envelope(p.body))
    requires position == |p.text| + |p.body| + 2 <= |s| && s[position..] == marker + tail
    ensures TurnAt(o, marker, s, position) == Fail(Panic)
  {
    MarkerFollows(s, marker, position, tail);
    ClosesAt(s, 0, p, |p.text|, position);
    EnvelopeAt(s, 0, p, |p.text|, position);
  }

  lemma MarkerFollows(s: seq<byte>, marker: seq<byte>, position: nat, tail: seq<byte>)
    requires position <= |s| && s[position..] == marker + tail
    ensures FirstAt(s, marker, position) == Some(position)
  {
    assert s[position..position + |marker|] == s[position..][..|marker|] == marker;
  }
}
