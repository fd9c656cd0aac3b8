/** Scaled decimals: their text, their unscaled integer, and its two's-complement bytes. */
module Decimals {
  import opened Prelude

  // ---------------------------------------------------------------------------
  // Digits
  // ---------------------------------------------------------------------------

  predicate IsDigit(c: char) {
    '0' <= c <= '9'
  }

  predicate AllDigits(s: string) {
    forall i :: 0 <= i < |s| ==> IsDigit(s[i])
  }

  function DigitChar(d: nat): (c: char)
    requires d < 10
    ensures IsDigit(c)
  {
    '0' + d as char
  }

  function DigitValue(c: char): (d: nat)
    requires IsDigit(c)
    ensures d < 10
  {
    (c - '0') as nat
  }

  /** The shortest decimal digits of `n`. */
  function ToDigits(n: nat): (s: string)
    ensures s != [] && AllDigits(s)
  {
    if n < 10 then [DigitChar(n)] else ToDigits(n / 10) + [DigitChar(n % 10)]
  }

  function FromDigits(s: string): nat
    requires AllDigits(s)
  {
    if s == [] then 0 else 10 * FromDigits(s[..|s| - 1]) + DigitValue(s[|s| - 1])
  }

  function Zeros(n: nat): (s: string)
    ensures |s| == n && AllDigits(s)
  {
    seq(n, _ => '0')
  }

  lemma {:induction false} DigitsReadBack(n: nat)
    ensures FromDigits(ToDigits(n)) == n
  {
    if n >= 10 {
      DigitsReadBack(n / 10);
      assert ToDigits(n)[..|ToDigits(n)| - 1] == ToDigits(n / 10);
    }
  }

  /** The shortest digits start with zero only for zero itself. */
  lemma {:induction false} ShortestDigits(n: nat)
    ensures ToDigits(n)[0] == '0' <==> n == 0
    ensures n == 0 ==> ToDigits(n) == "0"
  {
    if n >= 10 {
      ShortestDigits(n / 10);
    }
  }

  lemma {:induction false} LeadingZeros(k: nat, s: string)
    requires AllDigits(s)
    ensures FromDigits(Zeros(k) + s) == FromDigits(s)
    decreases |s|, k
  {
    var t := Zeros(k) + s;
    if s == [] {
      if k > 0 {
        assert t[..k - 1] == Zeros(k - 1) + [];
        LeadingZeros(k - 1, s);
      } else {
        assert t == [];
      }
    } else {
      assert t[..|t| - 1] == Zeros(k) + s[..|s| - 1];
      LeadingZeros(k, s[..|s| - 1]);
    }
  }

  /** Where the significant digits start: after the zeros, but never past the last digit. */
  function FirstSignificant(s: string): (i: nat)
    requires s != []
    ensures i < |s|
    ensures forall k :: 0 <= k < i ==> s[k] == '0'
    ensures s[i] != '0' || i == |s| - 1
  {
    if s[0] != '0' || |s| == 1 then 0 else 1 + FirstSignificant(s[1..])
  }

  /** Digits without leading zeros print back exactly. */
  lemma {:induction false} DigitsPrintBack(s: string)
    requires s != [] && AllDigits(s) && (s[0] != '0' || |s| == 1)
    ensures ToDigits(FromDigits(s)) == s
    decreases |s|
  {
    var front := s[..|s| - 1];
    if |s| == 1 {
      assert front == [];
    } else {
      DigitsPrintBack(front);
      ShortestDigits(FromDigits(front));
      assert FromDigits(front) > 0;
      assert FromDigits(s) / 10 == FromDigits(front) && FromDigits(s) % 10 == DigitValue(s[|s| - 1]);
      assert s == front + [s[|s| - 1]];
    }
  }

  /** The significant part of any digits is what their value prints as. */
  lemma SignificantDigits(s: string)
    requires s != [] && AllDigits(s)
    ensures s[FirstSignificant(s)..] == ToDigits(FromDigits(s))
  {
    var i := FirstSignificant(s);
    assert s == Zeros(i) + s[i..];
    LeadingZeros(i, s[i..]);
    DigitsPrintBack(s[i..]);
  }

  // ---------------------------------------------------------------------------
  // Decimal text
  // ---------------------------------------------------------------------------

  function PointAt(s: string): (i: nat)
    ensures i <= |s|
    ensures forall k :: 0 <= k < i ==> s[k] != '.'
    ensures i < |s| ==> s[i] == '.'
  {
    if s == [] || s[0] == '.' then 0 else 1 + PointAt(s[1..])
  }

  /** Sign, integer digits and fraction digits of a decimal text, split at the first point. */
  datatype Split = Split(negative: bool, integer: string, point: bool, fraction: string)

  function SplitText(value: string): Split {
    var negative := value != [] && value[0] == '-';
    var unsigned := if negative then value[1..] else value;
    var at := PointAt(unsigned);
    if at == |unsigned| then Split(negative, unsigned, false, [])
    else Split(negative, unsigned[..at], true, unsigned[at + 1..])
  }

  function JoinText(s: Split): string {
    (if s.negative then "-" else "") + s.integer + (if s.point then "." + s.fraction else "")
  }

  /** The text is canonical: digits on both sides, no padding, no negative zero. */
  predicate Canonical(s: Split) {
    && s.integer != [] && AllDigits(s.integer) && (|s.integer| > 1 ==> s.integer[0] != '0')
    && AllDigits(s.fraction) && (s.point <==> s.fraction != [])
    && (s.negative ==> !AllZeros(s.integer + s.fraction))
  }

  predicate AllZeros(s: string) {
    forall i :: 0 <= i < |s| ==> s[i] == '0'
  }

  datatype DecimalParts = DecimalParts(precision: nat, scale: nat)

  /** `parse_decimal`, with one error for all its messages. */
  function ParseDecimal(value: string): Option<DecimalParts> {
    var s := SplitText(value);
    var digits := s.integer + s.fraction;
    if s.integer == [] || !AllDigits(s.integer) then None
    else if |s.integer| > 1 && s.integer[0] == '0' then None
    else if s.point && (s.fraction == [] || !AllDigits(s.fraction)) then None
    else if s.negative && AllZeros(digits) then None
    else Some(DecimalParts(|digits| - FirstSignificant(digits), |s.fraction|))
  }

  /** The text is recovered from its parts. */
  lemma JoinSplit(value: string)
    ensures JoinText(SplitText(value)) == value
  {
  }

  /** Canonical parts survive being written and split again. */
  lemma SplitJoin(s: Split)
    requires s.integer != [] && AllDigits(s.integer) && AllDigits(s.fraction) && (!s.point ==> s.fraction == [])
    ensures SplitText(JoinText(s)) == s
  {
    var value := JoinText(s);
    var unsigned := s.integer + (if s.point then "." + s.fraction else "");
    assert IsDigit(s.integer[0]);
    assert unsigned[0] == s.integer[0];
    assert value[0] == '-' <==> s.negative;
    assert (if s.negative then value[1..] else value) == unsigned;
    PointAfterDigits(s.integer, if s.point then "." + s.fraction else "");
    if s.point {
      assert unsigned[|s.integer|] == '.';
      assert unsigned[..|s.integer|] == s.integer && unsigned[|s.integer| + 1..] == s.fraction;
    }
  }

  lemma {:induction false} PointAfterDigits(digits: string, rest: string)
    requires AllDigits(digits) && (rest == [] || rest[0] == '.')
    ensures PointAt(digits + rest) == |digits|
    decreases |digits|
  {
    if digits == [] {
      assert digits + rest == rest;
    } else {
      assert (digits + rest)[0] == digits[0] && IsDigit(digits[0]);
      assert (digits + rest)[1..] == digits[1..] + rest;
      PointAfterDigits(digits[1..], rest);
    }
  }

  // ---------------------------------------------------------------------------
  // Text and unscaled integer
  // ---------------------------------------------------------------------------

  function Signed(negative: bool, magnitude: nat): int {
    if negative then 0 - magnitude else magnitude
  }

  /** `decimal_to_unscaled`. */
  function ToUnscaled(value: string, scale: nat): Option<int> {
    var s := SplitText(value);
    if |s.fraction| > scale then None
    else
      var digits := s.integer + s.fraction + Zeros(scale - |s.fraction|);
      if digits == [] || !AllDigits(digits) then None
      else Some(Signed(s.negative, FromDigits(digits)))
  }

  function Magnitude(n: int): nat {
    if n < 0 then -n else n
  }

  /** What `unscaled_to_decimal_string` writes, before joining. */
  function ScaledParts(unscaled: int, scale: nat): Split {
    var digits := ToDigits(Magnitude(unscaled));
    if scale == 0 then Split(unscaled < 0, digits, false, [])
    else if |digits| > scale then Split(unscaled < 0, digits[..|digits| - scale], true, digits[|digits| - scale..])
    else Split(unscaled < 0, "0", true, Zeros(scale - |digits|) + digits)
  }

  function FromUnscaled(unscaled: int, scale: nat): string {
    JoinText(ScaledParts(unscaled, scale))
  }

  /** Digits that leave nothing before the point are padded to one more than the scale. */
  lemma PaddedDigits(digits: string, scale: nat)
    requires 0 < |digits| <= scale && AllDigits(digits)
    ensures "0" + (Zeros(scale - |digits|) + digits) == Zeros(1 + scale - |digits|) + digits
    ensures AllDigits(Zeros(scale - |digits|) + digits)
  {
    assert "0" + Zeros(scale - |digits|) == Zeros(1 + scale - |digits|);
  }

  /** The printed digits are the shortest ones behind some zeros. */
  lemma ScaledDigits(unscaled: int, scale: nat) returns (zeros: nat)
    ensures var s := ScaledParts(unscaled, scale);
            && s.integer + s.fraction == Zeros(zeros) + ToDigits(Magnitude(unscaled))
            && |s.fraction| == scale && (s.point <==> scale > 0)
            && s.integer != [] && AllDigits(s.integer) && AllDigits(s.fraction)
            && (|s.integer| > 1 ==> s.integer[0] == ToDigits(Magnitude(unscaled))[0])
  {
    var digits := ToDigits(Magnitude(unscaled));
    if scale > 0 && |digits| <= scale {
      zeros := 1 + scale - |digits|;
      PaddedDigits(digits, scale);
    } else {
      zeros := 0;
      var s := ScaledParts(unscaled, scale);
      assert Zeros(0) + digits == digits;
      assert s.integer + s.fraction == digits;
    }
  }

  lemma ScaledPartsShape(unscaled: int, scale: nat)
    ensures var s := ScaledParts(unscaled, scale);
            && Canonical(s) && |s.fraction| == scale && s.negative == (unscaled < 0)
            && FromDigits(s.integer + s.fraction) == Magnitude(unscaled)
  {
    var zeros := ScaledDigits(unscaled, scale);
    var s := ScaledParts(unscaled, scale);
    var digits := ToDigits(Magnitude(unscaled));
    LeadingZeros(zeros, digits);
    DigitsReadBack(Magnitude(unscaled));
    ShortestDigits(Magnitude(unscaled));
    NonzeroValue(s.integer + s.fraction);
  }

  /** Reading the parts of a text whose fraction already has the scale. */
  lemma UnscaledOf(value: string, scale: nat)
    requires Canonical(SplitText(value)) && |SplitText(value).fraction| == scale
    ensures var s := SplitText(value);
            && ToUnscaled(value, scale) == Some(Signed(s.negative, FromDigits(s.integer + s.fraction)))
            && (s.negative <==> ToUnscaled(value, scale).value < 0)
  {
    var s := SplitText(value);
    assert s.integer + s.fraction + Zeros(scale - |s.fraction|) == s.integer + s.fraction;
    NonzeroValue(s.integer + s.fraction);
  }

  /** `n` times ten to the `k`. */
  function Shifted(n: nat, k: nat): nat {
    if k == 0 then n else 10 * Shifted(n, k - 1)
  }

  lemma {:induction false} TrailingZeros(s: string, k: nat)
    requires AllDigits(s)
    ensures FromDigits(s + Zeros(k)) == Shifted(FromDigits(s), k)
    decreases k
  {
    if k == 0 {
      assert s + Zeros(0) == s;
    } else {
      OneMoreZero(s, k);
      TrailingZeros(s, k - 1);
    }
  }

  lemma OneMoreZero(s: string, k: nat)
    requires AllDigits(s) && k > 0
    ensures FromDigits(s + Zeros(k)) == 10 * FromDigits(s + Zeros(k - 1))
  {
    var t := s + Zeros(k);
    assert t[..|t| - 1] == s + Zeros(k - 1) && t[|t| - 1] == '0';
  }

  /** A canonical text has an unscaled form exactly when its fraction fits the scale, shifted by what is missing. */
  lemma UnscaledExactly(value: string, scale: nat)
    requires Canonical(SplitText(value))
    ensures var s := SplitText(value);
            ToUnscaled(value, scale) ==
              if |s.fraction| > scale then None
              else Some(Signed(s.negative, Shifted(FromDigits(s.integer + s.fraction), scale - |s.fraction|)))
  {
    var s := SplitText(value);
    if |s.fraction| <= scale { TrailingZeros(s.integer + s.fraction, scale - |s.fraction|); }
  }

  /** Every integer at every scale is printed and read back. */
  lemma UnscaledRoundTrip(unscaled: int, scale: nat)
    ensures ToUnscaled(FromUnscaled(unscaled, scale), scale) == Some(unscaled)
  {
    var s := ScaledParts(unscaled, scale);
    assert Canonical(s) && |s.fraction| == scale
           && Signed(s.negative, FromDigits(s.integer + s.fraction)) == unscaled by {
      ScaledPartsShape(unscaled, scale);
    }
    var value := JoinText(s);
    SplitJoin(s);
    UnscaledOf(value, scale);
  }

  /** What a canonical text's precision and scale are, in terms of its digits. */
  lemma PartsOf(value: string)
    requires Canonical(SplitText(value))
    ensures var s := SplitText(value);
            ParseDecimal(value) == Some(DecimalParts(|ToDigits(FromDigits(s.integer + s.fraction))|, |s.fraction|))
  {
    var s := SplitText(value);
    var digits := s.integer + s.fraction;
    SignificantDigits(digits);
    assert |digits[FirstSignificant(digits)..]| == |digits| - FirstSignificant(digits);
  }

  /** What is printed is canonical, with exactly the scale, and as precise as its magnitude has digits. */
  lemma PrintedParses(unscaled: int, scale: nat)
    ensures ParseDecimal(FromUnscaled(unscaled, scale))
            == Some(DecimalParts(|ToDigits(Magnitude(unscaled))|, scale))
  {
    ScaledPartsShape(unscaled, scale);
    SplitJoin(ScaledParts(unscaled, scale));
    PartsOf(FromUnscaled(unscaled, scale));
  }

  /** Canonical parts are the ones their own value is printed with. */
  lemma ScaledPartsOf(s: Split, unscaled: int)
    requires Canonical(s) && Magnitude(unscaled) == FromDigits(s.integer + s.fraction) && (s.negative <==> unscaled < 0)
    ensures ScaledParts(unscaled, |s.fraction|) == s
  {
    var all := s.integer + s.fraction;
    SignificantDigits(all);
    if FirstSignificant(all) == 0 {
      assert all[0..] == all;
      assert all[..|s.integer|] == s.integer && all[|s.integer|..] == s.fraction;
    } else {
      PaddedPartsOf(s, unscaled);
    }
  }

  lemma PaddedPartsOf(s: Split, unscaled: int)
    requires Canonical(s) && (s.negative <==> unscaled < 0)
    requires var all := s.integer + s.fraction;
             FirstSignificant(all) > 0 && ToDigits(Magnitude(unscaled)) == all[FirstSignificant(all)..]
    ensures ScaledParts(unscaled, |s.fraction|) == s
  {
    var all := s.integer + s.fraction;
    var i := FirstSignificant(all);
    assert all[0] == '0' && s.integer[0] == '0' && s.integer == "0";
    assert all[1..] == s.fraction && all[1..][i - 1..] == all[i..];
    assert forall k :: 0 <= k < i - 1 ==> s.fraction[k] == all[k + 1] == '0';
    ZerosInFront(s.fraction, i - 1);
  }

  lemma ZerosInFront(s: string, i: nat)
    requires i <= |s| && forall k :: 0 <= k < i ==> s[k] == '0'
    ensures s == Zeros(i) + s[i..]
  {
  }

  /** Every canonical text with exactly `scale` fraction digits is read and printed back. */
  lemma TextRoundTrip(value: string, scale: nat)
    requires ParseDecimal(value).Some? && ParseDecimal(value).value.scale == scale
    ensures ToUnscaled(value, scale).Some?
    ensures FromUnscaled(ToUnscaled(value, scale).value, scale) == value
    ensures ParseDecimal(value).value.precision == |ToDigits(Magnitude(ToUnscaled(value, scale).value))|
  {
    PartsOf(value);
    UnscaledOf(value, scale);
    ScaledPartsOf(SplitText(value), ToUnscaled(value, scale).value);
    JoinSplit(value);
  }

  /** The validator accepts exactly what some integer is printed as at some scale. */
  lemma ParsedIsPrinted(value: string)
    ensures ParseDecimal(value).Some? <==> exists unscaled, scale :: value == FromUnscaled(unscaled, scale)
  {
    if ParseDecimal(value).Some? {
      var scale := ParseDecimal(value).value.scale;
      TextRoundTrip(value, scale);
      assert value == FromUnscaled(ToUnscaled(value, scale).value, scale);
    }
    if unscaled, scale :| value == FromUnscaled(unscaled, scale) { PrintedParses(unscaled, scale); }
  }

  lemma {:induction false} NonzeroValue(s: string)
    requires AllDigits(s)
    ensures FromDigits(s) == 0 <==> AllZeros(s)
    decreases |s|
  {
    if s != [] {
      NonzeroValue(s[..|s| - 1]);
      assert s == s[..|s| - 1] + [s[|s| - 1]];
    }
  }

  // ---------------------------------------------------------------------------
  // Two's-complement bytes, big-endian
  // ---------------------------------------------------------------------------

  /** The signed integer a byte string denotes. */
  function SignedValue(bytes: seq<byte>): int {
    if bytes == [] then 0
    else if |bytes| == 1 then (if bytes[0] < 128 then bytes[0] else bytes[0] - 256)
    else 256 * SignedValue(bytes[..|bytes| - 1]) + bytes[|bytes| - 1]
  }

  /** The shortest bytes denoting `n`. */
  function MinimalBytes(n: int): (s: seq<byte>)
    ensures s != []
    decreases if n < 0 then -n else n
  {
    if -128 <= n < 128 then [n % 256] else MinimalBytes(n / 256) + [n % 256]
  }

  function Repeat(b: byte, n: nat): (s: seq<byte>)
    ensures |s| == n
  {
    seq(n, _ => b)
  }

  function Padding(n: int): byte {
    if n < 0 then 0xFF else 0x00
  }

  /** `decimal_to_bytes`, for any minimum width. */
  function SignExtended(n: int, width: nat): seq<byte> {
    var minimal := MinimalBytes(n);
    if |minimal| >= width then minimal else Repeat(Padding(n), width - |minimal|) + minimal
  }

  lemma {:induction false} MinimalDecodes(n: int)
    ensures SignedValue(MinimalBytes(n)) == n
    decreases if n < 0 then -n else n
  {
    if !(-128 <= n < 128) {
      MinimalDecodes(n / 256);
      var s := MinimalBytes(n);
      assert s[..|s| - 1] == MinimalBytes(n / 256);
    }
  }

  /** One more sign byte in front changes nothing. */
  lemma {:induction false} SignByte(bytes: seq<byte>)
    requires bytes != []
    ensures SignedValue([if SignedValue(bytes) < 0 then 0xFF else 0x00] + bytes) == SignedValue(bytes)
    decreases |bytes|
  {
    var longer := [if SignedValue(bytes) < 0 then 0xFF else 0x00] + bytes;
    if |bytes| == 1 {
      assert longer[..1] == [longer[0]];
    } else {
      SignByte(bytes[..|bytes| - 1]);
      assert longer[..|longer| - 1] == [longer[0]] + bytes[..|bytes| - 1];
    }
  }

  lemma RepeatUnfolds(b: byte, k: nat, bytes: seq<byte>)
    requires k > 0
    ensures Repeat(b, k) + bytes == [b] + (Repeat(b, k - 1) + bytes)
  {
    assert Repeat(b, k) == [b] + Repeat(b, k - 1);
  }

  lemma {:induction false} PaddingDecodes(bytes: seq<byte>, k: nat)
    requires bytes != []
    ensures SignedValue(Repeat(Padding(SignedValue(bytes)), k) + bytes) == SignedValue(bytes)
  {
    var pad := Padding(SignedValue(bytes));
    if k == 0 {
      assert Repeat(pad, 0) + bytes == bytes;
    } else {
      PaddingDecodes(bytes, k - 1);
      SignByte(Repeat(pad, k - 1) + bytes);
      RepeatUnfolds(pad, k, bytes);
    }
  }

  /** Whatever the width, the bytes decode to the integer they were made from, and are at least that wide. */
  lemma SignExtensionDecodes(n: int, width: nat)
    ensures SignedValue(SignExtended(n, width)) == n
    ensures |SignExtended(n, width)| >= width
  {
    MinimalDecodes(n);
    var minimal := MinimalBytes(n);
    if |minimal| < width { PaddingDecodes(minimal, width - |minimal|); }
  }

  /** `decimal_to_bytes`: a buffer of padding with the minimal bytes copied to its end. */
  method DecimalToBytes(unscaled: int, required: nat) returns (r: seq<byte>)
    ensures r == SignExtended(unscaled, required) && SignedValue(r) == unscaled
  {
    SignExtensionDecodes(unscaled, required);
    var minimal := MinimalBytes(unscaled);
    if |minimal| >= required { return minimal; }
    var bytes := new byte[required](_ => Padding(unscaled));
    var offset := required - |minimal|;
    for i := 0 to |minimal|
      invariant forall k :: 0 <= k < offset ==> bytes[k] == Padding(unscaled)
      invariant forall k :: 0 <= k < i ==> bytes[offset + k] == minimal[k]
    {
      bytes[offset + i] := minimal[i];
    }
    r := bytes[..];
    assert r[..offset] == Repeat(Padding(unscaled), offset);
    assert r[offset..] == minimal;
  }
}
