/**
 What one changed byte does to a frame.

 Outside the payload-length field a single substitution is always rejected, because the
 FNV-1a step is injective and because the header length must equal the cursor. Inside that
 field it is rejected except in one case, which is characterised exactly and shown to occur.
 */
module Corruption {
  import opened ByteLayout
  import opened Fnv
  import opened Wire
  import opened FixedHeader
  import opened WireCodec

  /** Bytes 10 to 13 hold the payload length. */
  predicate InPayloadLength(at: nat)
  {
    10 <= at < 14
  }

  // The header length

  /** A uid list read under a smaller limit is read identically under a larger one. */
  lemma {:induction false} ReadUidsLimit(data: Bytes, cursor: nat, small: nat, large: nat,
                                         count: nat)
    requires cursor <= small <= large <= |data|
    requires ReadUids(data, cursor, small, count).Some?
    ensures ReadUids(data, cursor, large, count) == ReadUids(data, cursor, small, count)
    decreases count
  {
    hide U16At;
    if count > 0 {
      ReadUidsLimit(data, cursor + 2 + U16At(data, cursor), small, large, count - 1);
    }
  }

  /** Reading depends only on the bytes at and after the cursor. */
  lemma {:induction false} ReadUidsAgree(a: Bytes, b: Bytes, cursor: nat, limit: nat,
                                         count: nat)
    requires cursor <= limit <= |a| == |b|
    requires a[cursor..] == b[cursor..]
    ensures ReadUids(a, cursor, limit, count) == ReadUids(b, cursor, limit, count)
    decreases count
  {
    hide FieldLe;
    if count > 0 && cursor + 2 <= limit {
      assert a[cursor..][..2] == a[cursor..cursor + 2] && b[cursor..][..2] == b[cursor..cursor + 2];
      U16Agree(a, b, cursor);
      var n := U16At(a, cursor);
      if n <= limit - (cursor + 2) {
        var next := cursor + 2 + n;
        assert a[cursor..][2..2 + n] == a[cursor + 2..next];
        assert b[cursor..][2..2 + n] == b[cursor + 2..next];
        assert a[next..] == a[cursor..][2 + n..] && b[next..] == b[cursor..][2 + n..];
        ReadUidsAgree(a, b, next, limit, count - 1);
      }
    }
  }

  lemma U16Agree(a: Bytes, b: Bytes, at: nat)
    requires at + 2 <= |a| && at + 2 <= |b| && a[at..at + 2] == b[at..at + 2]
    ensures U16At(a, at) == U16At(b, at)
  {
  }

  /** The texts determine where the header ends: two limits cannot both be met. */
  lemma HeaderLengthDetermined(a: Bytes, b: Bytes, l: Lengths, small: nat, large: nat)
    requires FIXED_HEADER_SIZE <= small < large <= |a| == |b|
    requires a[FIXED_HEADER_SIZE..] == b[FIXED_HEADER_SIZE..]
    requires ParseTexts(a, l, large).Some?
    ensures ParseTexts(b, l, small).None?
  {
    if ParseTexts(b, l, small).Some? {
      var c := FIXED_HEADER_SIZE + l.endpoint + l.entity;
      assert a[c..] == a[FIXED_HEADER_SIZE..][c - FIXED_HEADER_SIZE..];
      assert b[c..] == b[FIXED_HEADER_SIZE..][c - FIXED_HEADER_SIZE..];
      ReadUidsLimit(b, c, small, large, l.targets);
      ReadUidsAgree(a, b, c, large, l.targets);
    }
  }

  // The checksum

  /** A changed body never hashes to the old checksum. */
  lemma ChecksumSubstitution(body: Bytes, at: nat, x: byte)
    requires at < |body| && body[at] != x
    ensures Checksum(body[at := x]) != Checksum(body)
  {
    FoldSubstitution(Bits32, OFFSET_32, body, at, x);
  }

  lemma FieldSubstitution(data: Bytes, from: nat, n: nat, at: nat, x: byte)
    requires from <= at < from + n <= |data| && data[at] != x
    ensures FieldLe(data[at := x], from, n) != FieldLe(data, from, n)
  {
    LeOfFromLe(data[from..from + n]);
    LeOfFromLe(data[at := x][from..from + n]);
    assert data[from..from + n][at - from] == data[at];
    assert data[at := x][from..from + n][at - from] == x;
  }

  /** With the announced length kept, either the body or the trailer no longer matches. */
  lemma TrailerMismatch(frame: Bytes, at: nat, x: byte)
    requires 4 <= |frame| && at < |frame| && frame[at] != x
    requires U32At(frame, |frame| - 4) == Checksum(frame[..|frame| - 4])
    ensures
      var changed := frame[at := x];
      U32At(changed, |frame| - 4) != Checksum(changed[..|frame| - 4])
  {
    hide Checksum;
    var changed, end := frame[at := x], |frame| - 4;
    if at < end {
      assert changed[..end] == frame[..end][at := x];
      assert changed[end..end + 4] == frame[end..end + 4];
      ChecksumSubstitution(frame[..end], at, x);
    } else {
      assert changed[..end] == frame[..end];
      FieldSubstitution(frame, end, 4, at, x);
    }
  }

  // One changed byte

  lemma UntouchedField(data: Bytes, from: nat, n: nat, at: nat, x: byte)
    requires from + n <= |data| && at < |data| && !(from <= at < from + n)
    ensures FieldLe(data[at := x], from, n) == FieldLe(data, from, n)
  {
    assert data[at := x][from..from + n] == data[from..from + n];
  }

  /** A frame that `decode` accepts whole. */
  predicate WholeFrame(frame: Bytes)
  {
    Decode(frame).Accepted? && Decode(frame).consumed == |frame|
  }

  lemma HeaderLengthByte(frame: Bytes, at: nat, x: byte)
    requires WholeFrame(frame) && 8 <= at < 10 && at < |frame| && frame[at] != x
    ensures Decode(frame[at := x]).Rejected?
  {
    hide HasMagic, KnownEnumerators, AcceptableTexts, Checksum, EnvelopeOf, ParseTexts, FieldLe,
      ParseTrace;
    var changed := frame[at := x];
    AcceptedParts(frame);
    if Decode(changed).Accepted? {
      AcceptedParts(changed);
      var h, h' := ParseHeader(frame), ParseHeader(changed);
      FieldSubstitution(frame, 8, 2, at, x);
      UntouchedField(frame, 10, 4, at, x);
      SameLengths(frame, at, x);
      HeaderLengthDetermined(frame, changed, h.lengths, h'.prologue.headerLen,
                             h.prologue.headerLen);
    }
  }

  lemma SameLengths(frame: Bytes, at: nat, x: byte)
    requires at < FIXED_HEADER_SIZE <= |frame| && !(60 <= at < 72)
    ensures ParseLengths(frame[at := x]) == ParseLengths(frame)
    ensures frame[at := x][FIXED_HEADER_SIZE..] == frame[FIXED_HEADER_SIZE..]
  {
    hide FieldLe;
    UntouchedField(frame, 60, 2, at, x);
    UntouchedField(frame, 62, 2, at, x);
    UntouchedField(frame, 64, 2, at, x);
    UntouchedField(frame, 66, 2, at, x);
    UntouchedField(frame, 68, 2, at, x);
    UntouchedField(frame, 70, 2, at, x);
  }

  lemma OtherByte(frame: Bytes, at: nat, x: byte)
    requires WholeFrame(frame) && at < |frame| && !(8 <= at < 14) && frame[at] != x
    ensures Decode(frame[at := x]).Rejected?
  {
    hide HasMagic, KnownEnumerators, AcceptableTexts, Checksum, EnvelopeOf, ParseTexts, FieldLe,
      ParseTrace, ParseLengths, ParseTyping;
    var changed := frame[at := x];
    AcceptedParts(frame);
    if Decode(changed).Accepted? {
      AcceptedParts(changed);
      UntouchedField(frame, 8, 2, at, x);
      UntouchedField(frame, 10, 4, at, x);
      TrailerMismatch(frame, at, x);
    }
  }

  /**
   One-byte corruption. Changing any single byte of a whole frame outside the
   payload-length field makes `decode` of exactly those bytes fail.
   */
  lemma OneByteRejected(frame: Bytes, at: nat, x: byte)
    requires WholeFrame(frame)
    requires at < |frame| && !InPayloadLength(at) && frame[at] != x
    ensures Decode(frame[at := x]).Rejected?
  {
    if 8 <= at < 10 {
      HeaderLengthByte(frame, at, x);
    } else {
      OtherByte(frame, at, x);
    }
  }

  /** The same for a frame fresh from `encode`. */
  lemma OneByteOfEncodedRejected(e: Envelope, autoFill: bool, now: u64, at: nat, x: byte)
    requires
      var frame := Encode(e, autoFill, now);
      at < |frame| && !InPayloadLength(at) && frame[at] != x
    ensures Decode(Encode(e, autoFill, now)[at := x]).Rejected?
  {
    var frame := Encode(e, autoFill, now);
    RoundTrip(e, autoFill, now, []);
    assert frame + [] == frame;
    OneByteRejected(frame, at, x);
  }

  // The payload length

  /**
   Inside the payload-length field the substitution passes if and only if the announced
   frame got shorter and the four bytes now taken for the trailer happen to be the checksum
   of the bytes before them.
   */
  lemma PayloadLengthByte(frame: Bytes, at: nat, x: byte)
    requires WholeFrame(frame) && InPayloadLength(at) && at < |frame| && frame[at] != x
    ensures
      var changed := frame[at := x];
      |changed| >= FIXED_HEADER_SIZE
      && var total := TotalLength(ParseHeader(changed));
      Decode(changed).Accepted?
      <==> total < |frame| && U32At(changed, total - 4) == Checksum(changed[..total - 4])
  {
    hide HasMagic, KnownEnumerators, AcceptableTexts, Checksum, EnvelopeOf, ParseTexts, FieldLe;
    var changed := frame[at := x];
    AcceptedParts(frame);
    var h, h' := ParseHeader(frame), ParseHeader(changed);
    PayloadLengthHeader(frame, at, x);
    MagicKept(frame, at, x);
    TextsKept(frame, at, x, h.lengths, h.prologue.headerLen);
    KindsKept(h, h', ParseTexts(frame, h.lengths, h.prologue.headerLen).value);
  }

  lemma PayloadLengthHeader(frame: Bytes, at: nat, x: byte)
    requires FIXED_HEADER_SIZE <= |frame| && InPayloadLength(at) && frame[at] != x
    ensures
      var h, h' := ParseHeader(frame), ParseHeader(frame[at := x]);
      && h' == h.(prologue := h.prologue.(payloadLen := h'.prologue.payloadLen))
      && h'.prologue.payloadLen != h.prologue.payloadLen
  {
    hide FieldLe, ParseLengths;
    FieldSubstitution(frame, 10, 4, at, x);
    SameLengths(frame, at, x);
    UntouchedField(frame, 6, 2, at, x);
    UntouchedField(frame, 8, 2, at, x);
    UntouchedField(frame, 18, 2, at, x);
    UntouchedField(frame, 20, 8, at, x);
    UntouchedField(frame, 28, 8, at, x);
    UntouchedField(frame, 36, 8, at, x);
    UntouchedField(frame, 44, 8, at, x);
    UntouchedField(frame, 52, 4, at, x);
    UntouchedField(frame, 56, 4, at, x);
    UntouchedField(frame, 74, 2, at, x);
    UntouchedField(frame, 76, 2, at, x);
    UntouchedField(frame, 78, 2, at, x);
  }

  lemma MagicKept(frame: Bytes, at: nat, x: byte)
    requires 4 <= at < |frame|
    ensures HasMagic(frame[at := x]) == HasMagic(frame)
  {
  }

  lemma KindsKept(h: Header, h': Header, t: Texts)
    requires h' == h.(prologue := h.prologue.(payloadLen := h'.prologue.payloadLen))
    ensures KnownEnumerators(h') == KnownEnumerators(h)
    ensures AcceptableTexts(h', t) == AcceptableTexts(h, t)
  {
  }

  lemma TextsKept(frame: Bytes, at: nat, x: byte, l: Lengths, limit: nat)
    requires at < FIXED_HEADER_SIZE <= limit <= |frame|
    ensures ParseTexts(frame[at := x], l, limit) == ParseTexts(frame, l, limit)
  {
    hide ReadUids;
    var changed := frame[at := x];
    assert forall c, d :: FIXED_HEADER_SIZE <= c <= d <= |frame| ==> changed[c..d] == frame[c..d];
    var c := FIXED_HEADER_SIZE + l.endpoint + l.entity;
    if c <= limit {
      ReadUidsAgree(frame, changed, c, limit, l.targets);
    }
  }

  /**
   The exception is real: for every envelope with an empty payload there is a frame, its
   payload the checksum of the empty frame's body, in which changing byte 10 from four to
   zero makes `decode` accept the shorter envelope.
   */
  lemma PayloadLengthCorruptionCanPass(e: Envelope, now: u64)
    requires Encodable(e) && e.payload == []
    ensures
      var short := Encode(e, true, now);
      var long := Encode(e.(payload := short[|short| - 4..]), true, now);
      && short != [] && long != []
      && long[10] == 4
      && Decode(long[10 := 0]) == Decode(short)
      && Decode(short).Accepted?
  {
    hide HeaderBytes, TextsBytes, Checksum;
    var short := Encode(e, true, now);
    AutoFillConsistent(e, now);
    var v := AutoFill(e, now);
    FrameSlices(v, []);
    var e' := e.(payload := short[|short| - 4..]);
    assert TextsOf(e') == TextsOf(e);
    AutoFillConsistent(e', now);
    var v' := AutoFill(e', now);
    FrameSlices(v', []);
    var long := Encode(e', true, now);
    PayloadLengthBytes(HeaderOf(v), HeaderOf(v'));
    var trailer := Le(Checksum(Body(v)), 4);
    assert short == Body(v) + trailer && e'.payload == trailer;
    assert long[10 := 0] == short + Le(Checksum(Body(v')), 4);
    DecodeOfFrame(v, Le(Checksum(Body(v')), 4));
    DecodeOfFrame(v, []);
    assert short + [] == short;
  }

  /** Two headers that differ only in a payload length of zero and of four. */
  lemma PayloadLengthBytes(a: Header, b: Header)
    requires b == a.(prologue := a.prologue.(payloadLen := 4)) && a.prologue.payloadLen == 0
    ensures HeaderBytes(b)[10] == 4 && HeaderBytes(b)[10 := 0] == HeaderBytes(a)
  {
    hide PrologueBytes, TraceBytes, LengthsBytes, TypingBytes;
    PrologueLengthBytes(a.prologue, b.prologue);
    var rest := TraceBytes(b.trace)
      + (LengthsBytes(b.lengths) + TypingBytes(b.typing));
    UpdateFront(PrologueBytes(b.prologue), rest, 10, 0);
  }

  lemma PrologueLengthBytes(a: Prologue, b: Prologue)
    requires b == a.(payloadLen := 4) && a.payloadLen == 0
    ensures PrologueBytes(b)[10] == 4 && PrologueBytes(b)[10 := 0] == PrologueBytes(a)
  {
    hide PrologueBytes;
    RegroupPrologue(a);
    RegroupPrologue(b);
    assert Le(0, 4) == [0, 0, 0, 0] && Le(4, 4) == [4, 0, 0, 0];
    ReplaceAfter(MAGIC + [b.major, b.version] + Le(b.flags, 2) + Le(b.headerLen, 2),
                 [4, 0, 0, 0],
                 [b.qos, b.family, b.operation, b.reserved17] + Le(b.schema, 2));
  }

  lemma UpdateFront(front: Bytes, back: Bytes, at: nat, x: byte)
    requires at < |front|
    ensures (front + back)[at] == front[at]
    ensures (front + back)[at := x] == front[at := x] + back
  {
  }

  lemma RegroupPrologue(p: Prologue)
    ensures PrologueBytes(p)
         == MAGIC + [p.major, p.version] + Le(p.flags, 2) + Le(p.headerLen, 2)
            + (Le(p.payloadLen, 4)
               + ([p.qos, p.family, p.operation, p.reserved17] + Le(p.schema, 2)))
  {
    Regroup(MAGIC + [p.major, p.version], Le(p.flags, 2), Le(p.headerLen, 2),
            Le(p.payloadLen, 4) + ([p.qos, p.family, p.operation, p.reserved17] + Le(p.schema, 2)));
  }

  lemma Regroup(a: Bytes, b: Bytes, c: Bytes, d: Bytes)
    ensures a + (b + (c + d)) == a + b + c + d
  {
  }

  lemma ReplaceAfter(front: Bytes, four: Bytes, back: Bytes)
    requires |four| == 4
    ensures (front + (four + back))[|front|] == four[0]
    ensures (front + (four + back))[|front| := 0] == front + (four[0 := 0] + back)
  {
  }
}
