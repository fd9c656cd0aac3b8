/** The concrete event frame: magic, version, sequence, length, payload, SHA-256 of all before it. */
module Frames {
  import opened Prelude
  import opened Bytes
  import opened FrameStream

  const MAGIC: seq<byte> := [0x4D, 0x53, 0x45, 0x4C]
  const FRAME_VERSION: byte := 1
  const SEQUENCE_LIMIT := 0x1_0000_0000_0000_0000

  type Sha256 = seq<byte> -> seq<byte>

  ghost predicate Digests(sha: Sha256) {
    forall bytes :: |sha(bytes)| == CHECKSUM_BYTES
  }

  function Header(sequence: nat, length: nat): (h: seq<byte>)
    ensures |h| == HEADER_BYTES
  {
    MAGIC + [FRAME_VERSION] + BigEndian(sequence, 8) + BigEndian(length, 4)
  }

  function EncodeFrame(sha: Sha256, sequence: nat, payload: seq<byte>): seq<byte> {
    var body := Header(sequence, |payload|) + payload;
    body + sha(body)
  }

  function PayloadLength(rest: seq<byte>): nat
    requires |rest| >= HEADER_BYTES
  {
    FromBigEndian(rest[13..17])
  }

  /** One turn of the loop in `parse_frames`; the checks come in the order of the source. */
  function ReadFrame(sha: Sha256, rest: seq<byte>, previous: Previous, snapshot: nat): Head {
    if |rest| < HEADER_BYTES then Torn
    else if rest[..4] != MAGIC then Bad(Corrupt)
    else if rest[4] != FRAME_VERSION then Bad(UnsupportedVersion(rest[4]))
    else if PayloadLength(rest) > MAX_PAYLOAD_BYTES then Bad(LimitExceeded)
    else if |rest| < FrameLength(PayloadLength(rest)) then Torn
    else
      var sequence := FromBigEndian(rest[5..13]);
      var end := HEADER_BYTES + PayloadLength(rest);
      if !Follows(SEQUENCE_LIMIT, previous, snapshot, sequence) then Bad(Corrupt)
      else if rest[end..end + CHECKSUM_BYTES] != sha(rest[..end]) then Bad(Corrupt)
      else Whole(sequence, rest[HEADER_BYTES..end])
  }

  function EventFormat(sha: Sha256): Format {
    Format(SEQUENCE_LIMIT,
           (sequence: nat, payload: seq<byte>) => EncodeFrame(sha, sequence, payload),
           (rest: seq<byte>, previous: Previous, snapshot: nat) => ReadFrame(sha, rest, previous, snapshot))
  }

  lemma HeaderFields(sha: Sha256, sequence: nat, payload: seq<byte>, after: seq<byte>)
    requires sequence < SEQUENCE_LIMIT && FitsFrame(payload)
    ensures var f := EncodeFrame(sha, sequence, payload) + after;
            && f[..4] == MAGIC && f[4] == FRAME_VERSION
            && FromBigEndian(f[5..13]) == sequence && PayloadLength(f) == |payload|
            && f[HEADER_BYTES..HEADER_BYTES + |payload|] == payload
            && f[..HEADER_BYTES + |payload|] == Header(sequence, |payload|) + payload
  {
    var f := EncodeFrame(sha, sequence, payload) + after;
    assert f[5..13] == BigEndian(sequence, 8);
    assert f[13..17] == BigEndian(|payload|, 4);
    assert Pow256(8) == SEQUENCE_LIMIT && Pow256(4) == 0x1_0000_0000;
    DecodeEncode(sequence, 8);
    DecodeEncode(|payload|, 4);
  }

  lemma FrameReadsBack(
    sha: Sha256, sequence: nat, payload: seq<byte>, after: seq<byte>, previous: Previous, snapshot: nat)
    requires Digests(sha) && sequence < SEQUENCE_LIMIT && FitsFrame(payload)
    ensures |EncodeFrame(sha, sequence, payload)| == FrameLength(|payload|)
    ensures ReadFrame(sha, EncodeFrame(sha, sequence, payload) + after, previous, snapshot)
            == if Follows(SEQUENCE_LIMIT, previous, snapshot, sequence) then Whole(sequence, payload) else Bad(Corrupt)
  {
    HeaderFields(sha, sequence, payload, after);
    var f := EncodeFrame(sha, sequence, payload) + after;
    var end := HEADER_BYTES + |payload|;
    assert f[end..end + CHECKSUM_BYTES] == sha(f[..end]);
  }

  lemma PrefixIsTorn(sha: Sha256, sequence: nat, payload: seq<byte>, n: nat, previous: Previous, snapshot: nat)
    requires Digests(sha) && sequence < SEQUENCE_LIMIT && FitsFrame(payload)
    requires n < |EncodeFrame(sha, sequence, payload)|
    ensures ReadFrame(sha, EncodeFrame(sha, sequence, payload)[..n], previous, snapshot) == Torn
  {
    var f := EncodeFrame(sha, sequence, payload);
    HeaderFields(sha, sequence, payload, []);
    assert f + [] == f;
    if n >= HEADER_BYTES {
      assert f[..n][..4] == f[..4];
      assert f[..n][13..17] == f[13..17];
    }
  }

  lemma HeaderRebuilt(rest: seq<byte>)
    requires |rest| >= HEADER_BYTES && rest[..4] == MAGIC && rest[4] == FRAME_VERSION
    ensures rest[..HEADER_BYTES] == Header(FromBigEndian(rest[5..13]), PayloadLength(rest))
    ensures FromBigEndian(rest[5..13]) < SEQUENCE_LIMIT
  {
    EncodeDecode(rest[5..13]);
    EncodeDecode(rest[13..17]);
    assert Pow256(8) == SEQUENCE_LIMIT;
    assert rest[..HEADER_BYTES] == rest[..4] + [rest[4]] + rest[5..13] + rest[13..17];
  }

  lemma WholeFrameIsEncoding(sha: Sha256, rest: seq<byte>, previous: Previous, snapshot: nat)
    requires Digests(sha) && ReadFrame(sha, rest, previous, snapshot).Whole?
    ensures var h := ReadFrame(sha, rest, previous, snapshot);
            && h.sequence < SEQUENCE_LIMIT && FitsFrame(h.payload)
            && Follows(SEQUENCE_LIMIT, previous, snapshot, h.sequence)
            && FrameLength(|h.payload|) <= |rest|
            && rest[..FrameLength(|h.payload|)] == EncodeFrame(sha, h.sequence, h.payload)
  {
    var h := ReadFrame(sha, rest, previous, snapshot);
    HeaderRebuilt(rest);
    var end := HEADER_BYTES + |h.payload|;
    assert rest[..end] == rest[..HEADER_BYTES] + rest[HEADER_BYTES..end];
    assert rest[..end + CHECKSUM_BYTES] == rest[..end] + rest[end..end + CHECKSUM_BYTES];
  }

  /** The event frame is lawful: it reads back, tears cleanly, and admits nothing but its own encodings. */
  lemma EventFormatLawful(sha: Sha256)
    requires Digests(sha)
    ensures Lawful(EventFormat(sha))
  {
    var f := EventFormat(sha);
    forall sequence, payload, after, previous, snapshot
      ensures ReadsBack(f, sequence, payload, after, previous, snapshot)
    {
      if Encodable(f, sequence, payload) { FrameReadsBack(sha, sequence, payload, after, previous, snapshot); }
    }
    forall sequence, payload ensures FixedLength(f, sequence, payload) {
      if Encodable(f, sequence, payload) { FrameReadsBack(sha, sequence, payload, [], Start, 0); }
    }
    forall sequence, payload, n: nat, previous, snapshot
      ensures TearsCleanly(f, sequence, payload, n, previous, snapshot)
    {
      if Encodable(f, sequence, payload) && n < |f.encode(sequence, payload)| {
        PrefixIsTorn(sha, sequence, payload, n, previous, snapshot);
      }
    }
    forall rest, previous, snapshot ensures WholeIsEncoding(f, rest, previous, snapshot) {
      if ReadFrame(sha, rest, previous, snapshot).Whole? { WholeFrameIsEncoding(sha, rest, previous, snapshot); }
    }
  }
}
