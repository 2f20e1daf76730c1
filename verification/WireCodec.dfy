/**
 The frame codec: what `encode` prints, what `decode` accepts, and how the two relate.

 `Encode` and `Decode` are the specifications; the methods in `WireCodecLoops` are the
 program's loops, proved equal to them.
 */
module WireCodec {
  import opened ByteLayout
  import opened Fnv
  import opened Wire
  import opened FixedHeader

  const MIN_ENVELOPE_SIZE := 84

  // The variable part of the header

  /** Everything between the fixed header and the payload. */
  datatype Texts = Texts(
    endpoint: Bytes,
    entity: Bytes,
    uids: seq<Bytes>,
    auth: Bytes,
    profile: Bytes,
    typeName: Bytes)

  function TargetBytes(uids: seq<Bytes>): Bytes
  {
    if uids == [] then [] else Le(|uids[0]|, 2) + uids[0] + TargetBytes(uids[1..])
  }

  function TextsBytes(t: Texts): Bytes
  {
    t.endpoint + (t.entity + (TargetBytes(t.uids) + (t.auth + (t.profile + t.typeName))))
  }

  function TextsOf(e: Envelope): Texts
  {
    Texts(e.source.endpointUid, e.source.entityUid, e.target.uids, e.security.authTag,
          e.typ.profileId, e.typ.typeName)
  }

  // Printing

  /** The checks `encode` makes before it fills in the header. */
  predicate Encodable(e: Envelope)
  {
    && e.protocolMajor == PROTOCOL_MAJOR
    && e.headerVersion == HEADER_VERSION
    && e.schemaVersion == SCHEMA_VERSION
    && ValidUid(e.source.endpointUid)
    && (e.source.entityUid != [] ==> ValidUid(e.source.entityUid))
    && ValidTypeRef(e.typ)
    && |e.payload| <= MAX_PAYLOAD_BYTES
    && |e.target.uids| < 0x1_0000
    && (e.target.scope.Broadcast? <==> e.target.uids == [])
    && ValidUids(e.target.uids)
    && |TextsBytes(TextsOf(e))| <= 0xFFFF - FIXED_HEADER_SIZE
    && |e.security.authTag| < 0x1_0000
  }

  /** The auto-filled header fields; `now` is the sender's wall clock. */
  function AutoFill(e: Envelope, now: u64): Envelope
    requires Encodable(e)
  {
    var created := if e.createdAtMs == 0 then now else e.createdAtMs;
    e.(headerLen := FIXED_HEADER_SIZE + |TextsBytes(TextsOf(e))|,
       payloadLen := |e.payload|,
       createdAtMs := created,
       messageId := if e.messageId == 0 then created else e.messageId)
  }

  /** The stored lengths are those of the parts. */
  predicate Consistent(e: Envelope)
  {
    && e.headerLen == FIXED_HEADER_SIZE + |TextsBytes(TextsOf(e))|
    && e.payloadLen == |e.payload|
  }

  function LengthsOf(e: Envelope): Lengths
    requires Encodable(e)
  {
    TextsLengths(e);
    Lengths(|e.source.endpointUid|, |e.source.entityUid|, |e.target.uids|,
            |e.security.authTag|, |e.typ.profileId|, |e.typ.typeName|)
  }

  lemma TextsLengths(e: Envelope)
    requires Encodable(e)
    ensures |e.source.endpointUid| < 0x1_0000 && |e.source.entityUid| < 0x1_0000
    ensures |e.typ.profileId| < 0x1_0000 && |e.typ.typeName| < 0x1_0000
  {
  }

  /** The fixed header of an envelope; the reserved positions are zero. */
  function HeaderOf(e: Envelope): Header
    requires Encodable(e)
  {
    Header(
      Prologue(e.protocolMajor, e.headerVersion, e.flags, e.headerLen, e.payloadLen,
               QosByte(e.qos), FamilyByte(e.family), e.operation, 0, e.schemaVersion),
      Trace(e.sessionId, e.messageId, e.correlationId, e.createdAtMs, e.ttlMs,
            e.security.keyEpoch),
      LengthsOf(e),
      Typing(ScopeByte(e.target.scope), 0, e.typ.major, e.typ.minor, 0))
  }

  function Body(e: Envelope): Bytes
    requires Encodable(e)
  {
    HeaderBytes(HeaderOf(e)) + TextsBytes(TextsOf(e)) + e.payload
  }

  function Sealed(body: Bytes): Bytes
  {
    body + Le(Checksum(body), 4)
  }

  /** `WireCodec::encode`; the empty result means the envelope was refused. */
  function Encode(e: Envelope, autoFill: bool, now: u64): Bytes
  {
    if !Encodable(e) then []
    else
      var v := if autoFill then AutoFill(e, now) else e;
      if Consistent(v) then Sealed(Body(v)) else []
  }

  // Parsing

  datatype DecodeResult =
    | Accepted(envelope: Envelope, consumed: nat)
    | Rejected(code: ErrorCode, consumed: nat)

  function ReadUids(data: Bytes, cursor: nat, limit: nat, count: nat)
    : (r: Option<(seq<Bytes>, nat)>)
    requires cursor <= limit <= |data|
    ensures r.Some? ==> cursor <= r.value.1 <= limit
    decreases count
  {
    if count == 0 then Some(([], cursor))
    else if cursor + 2 > limit then None
    else
      var n := U16At(data, cursor);
      if n > limit - (cursor + 2) then None
      else
        match ReadUids(data, cursor + 2 + n, limit, count - 1)
        case None => None
        case Some((uids, end)) => Some(([data[cursor + 2..cursor + 2 + n]] + uids, end))
  }

  /** The texts that fill the header exactly, in the order of the cursor. */
  function ParseTexts(data: Bytes, l: Lengths, limit: nat): (r: Option<Texts>)
    requires FIXED_HEADER_SIZE <= limit <= |data|
  {
    var c0 := FIXED_HEADER_SIZE;
    if l.endpoint > limit - c0 then None
    else
      var c1 := c0 + l.endpoint;
      if l.entity > limit - c1 then None
      else
        var c2 := c1 + l.entity;
        match ReadUids(data, c2, limit, l.targets)
        case None => None
        case Some((uids, c3)) =>
          if l.auth > limit - c3 then None
          else
            var c4 := c3 + l.auth;
            if l.profile > limit - c4 then None
            else
              var c5 := c4 + l.profile;
              if l.typeName > limit - c5 || c5 + l.typeName != limit then None
              else
                Some(Texts(data[c0..c1], data[c1..c2], uids, data[c3..c4], data[c4..c5],
                           data[c5..limit]))
  }

  function EnvelopeOf(h: Header, t: Texts, payload: Bytes, checksum: u32): Envelope
    requires KnownEnumerators(h)
  {
    Envelope(
      h.prologue.major, h.prologue.version, h.prologue.flags, h.prologue.headerLen,
      h.prologue.payloadLen, QosOf(h.prologue.qos).value, FamilyOf(h.prologue.family).value,
      h.prologue.operation, h.prologue.schema, h.trace.sessionId, h.trace.messageId,
      h.trace.correlationId, SourceIdentity(t.endpoint, t.entity),
      TargetSelector(ScopeOf(h.typing.scope).value, t.uids),
      TypeRef(t.profile, h.typing.major, h.typing.minor, t.typeName),
      h.trace.createdAtMs, h.trace.ttlMs, payload, SecurityContext(h.trace.keyEpoch, t.auth),
      checksum)
  }

  predicate KnownEnumerators(h: Header)
  {
    QosOf(h.prologue.qos).Some? && FamilyOf(h.prologue.family).Some?
    && ScopeOf(h.typing.scope).Some?
  }

  /** The identifier and target checks `decode` makes on the texts. */
  predicate AcceptableTexts(h: Header, t: Texts)
  {
    && ValidUid(t.endpoint)
    && (t.entity != [] ==> ValidUid(t.entity))
    && ValidTypeRef(TypeRef(t.profile, h.typing.major, h.typing.minor, t.typeName))
    && (ScopeOf(h.typing.scope) == Some(Broadcast) <==> t.uids == [])
    && ValidUids(t.uids)
  }

  /** The length a header announces for its whole frame. */
  function TotalLength(h: Header): (r: nat)
  {
    h.prologue.headerLen + h.prologue.payloadLen + TRAILER_SIZE
  }

  /** `WireCodec::decode`. */
  function Decode(data: Bytes): DecodeResult
  {
    if |data| < MIN_ENVELOPE_SIZE then Rejected(DecodeError, 0)
    else if !HasMagic(data) then Rejected(InvalidHeader, 0)
    else
      var h := ParseHeader(data);
      if h.prologue.major != PROTOCOL_MAJOR || h.prologue.version != HEADER_VERSION
         || h.prologue.schema != SCHEMA_VERSION
      then Rejected(ProtocolMismatch, 0)
      else if h.prologue.headerLen < FIXED_HEADER_SIZE
              || h.prologue.payloadLen > MAX_PAYLOAD_BYTES
      then Rejected(DecodeError, 0)
      else if |data| < TotalLength(h) then Rejected(DecodeError, 0)
      else DecodeWhole(data, h)
  }

  /** The part of `decode` that runs once the whole frame is known to be there. */
  function DecodeWhole(data: Bytes, h: Header): DecodeResult
    requires h.prologue.headerLen >= FIXED_HEADER_SIZE && TotalLength(h) <= |data|
  {
    var total := TotalLength(h);
    if !KnownEnumerators(h) then Rejected(DecodeError, total)
    else
      match ParseTexts(data, h.lengths, h.prologue.headerLen)
      case None => Rejected(DecodeError, total)
      case Some(t) =>
        if !AcceptableTexts(h, t) then Rejected(DecodeError, total)
        else if U32At(data, total - 4) != Checksum(data[..total - 4])
        then Rejected(ChecksumMismatch, total)
        else
          Accepted(EnvelopeOf(h, t, data[h.prologue.headerLen..total - 4],
                              U32At(data, total - 4)),
                   total)
  }

  // Texts: parse after print

  lemma {:induction false} ReadUidsOfTargetBytes(data: Bytes, cursor: nat, limit: nat,
                                                 uids: seq<Bytes>)
    requires cursor + |TargetBytes(uids)| <= limit <= |data|
    requires data[cursor..cursor + |TargetBytes(uids)|] == TargetBytes(uids)
    requires forall i :: 0 <= i < |uids| ==> |uids[i]| < 0x1_0000
    ensures ReadUids(data, cursor, limit, |uids|)
         == Some((uids, cursor + |TargetBytes(uids)|))
    decreases |uids|
  {
    hide FieldLe, FromLe, Le, Pow256;
    if uids != [] {
      var first, rest := uids[0], uids[1..];
      var tail := TargetBytes(rest);
      assert TargetBytes(uids) == Le(|first|, 2) + (first + tail);
      SliceSplit(data, cursor, Le(|first|, 2), first + tail);
      SliceSplit(data, cursor + 2, first, tail);
      PowersOf256();
      FieldReads(data, cursor, |first|, 2);
      ReadUidsOfTargetBytes(data, cursor + 2 + |first|, limit, rest);
      assert [first] + rest == uids;
    }
  }

  /** Where each text starts inside the header. */
  lemma TextsSlices(data: Bytes, at: nat, t: Texts)
    requires at + |TextsBytes(t)| <= |data|
    requires data[at..at + |TextsBytes(t)|] == TextsBytes(t)
    ensures
      var c1 := at + |t.endpoint|;
      var c2 := c1 + |t.entity|;
      var c3 := c2 + |TargetBytes(t.uids)|;
      var c4 := c3 + |t.auth|;
      var c5 := c4 + |t.profile|;
      && data[at..c1] == t.endpoint
      && data[c1..c2] == t.entity
      && data[c2..c3] == TargetBytes(t.uids)
      && data[c3..c4] == t.auth
      && data[c4..c5] == t.profile
      && data[c5..c5 + |t.typeName|] == t.typeName
  {
    SixSlices(data, at, t.endpoint, t.entity, TargetBytes(t.uids), t.auth, t.profile,
              t.typeName);
  }

  lemma ParseTextsOfTextsBytes(data: Bytes, l: Lengths, limit: nat, t: Texts)
    requires FIXED_HEADER_SIZE + |TextsBytes(t)| == limit <= |data|
    requires data[FIXED_HEADER_SIZE..limit] == TextsBytes(t)
    requires l.endpoint == |t.endpoint| && l.entity == |t.entity| && l.targets == |t.uids|
    requires l.auth == |t.auth| && l.profile == |t.profile| && l.typeName == |t.typeName|
    requires forall i :: 0 <= i < |t.uids| ==> |t.uids[i]| < 0x1_0000
    ensures ParseTexts(data, l, limit) == Some(t)
  {
    TextsSlices(data, FIXED_HEADER_SIZE, t);
    ReadUidsOfTargetBytes(data, FIXED_HEADER_SIZE + |t.endpoint| + |t.entity|, limit, t.uids);
  }

  // Texts: print after parse

  lemma {:induction false} TargetBytesOfReadUids(data: Bytes, cursor: nat, limit: nat,
                                                 count: nat)
    requires cursor <= limit <= |data|
    requires ReadUids(data, cursor, limit, count).Some?
    ensures
      var (uids, end) := ReadUids(data, cursor, limit, count).value;
      && |uids| == count
      && TargetBytes(uids) == data[cursor..end]
    decreases count
  {
    hide FieldLe, FromLe, Le, Pow256;
    if count > 0 {
      var n := U16At(data, cursor);
      TargetBytesOfReadUids(data, cursor + 2 + n, limit, count - 1);
      var (uids, end) := ReadUids(data, cursor, limit, count).value;
      assert uids[0] == data[cursor + 2..cursor + 2 + n];
      assert uids[1..] == ReadUids(data, cursor + 2 + n, limit, count - 1).value.0;
      FieldWrites(data, cursor, 2);
      SliceJoin(data, cursor, cursor + 2, cursor + 2 + n);
      SliceJoin(data, cursor, cursor + 2 + n, end);
    }
  }

  lemma TextsBytesOfParseTexts(data: Bytes, l: Lengths, limit: nat)
    requires FIXED_HEADER_SIZE <= limit <= |data|
    requires ParseTexts(data, l, limit).Some?
    ensures
      var t := ParseTexts(data, l, limit).value;
      && TextsBytes(t) == data[FIXED_HEADER_SIZE..limit]
      && l.endpoint == |t.endpoint| && l.entity == |t.entity| && l.targets == |t.uids|
      && l.auth == |t.auth| && l.profile == |t.profile| && l.typeName == |t.typeName|
  {
    hide ReadUids, TargetBytes;
    var c1 := FIXED_HEADER_SIZE + l.endpoint;
    var c2 := c1 + l.entity;
    TargetBytesOfReadUids(data, c2, limit, l.targets);
    var c3 := ReadUids(data, c2, limit, l.targets).value.1;
    var c4 := c3 + l.auth;
    var c5 := c4 + l.profile;
    SixJoin(data, FIXED_HEADER_SIZE, c1, c2, c3, c4, c5, limit);
  }

  // Round trip

  /** The envelope `decode` returns for a frame printed from `e`. */
  function Stamped(e: Envelope): Envelope
    requires Encodable(e)
  {
    e.(checksum := Checksum(Body(e)))
  }

  lemma EnvelopeOfHeaderOf(e: Envelope, checksum: u32)
    requires Encodable(e)
    ensures KnownEnumerators(HeaderOf(e))
    ensures EnvelopeOf(HeaderOf(e), TextsOf(e), e.payload, checksum) == e.(checksum := checksum)
    ensures AcceptableTexts(HeaderOf(e), TextsOf(e))
  {
  }

  /** The four parts of a frame, as slices of any buffer the frame opens. */
  lemma FrameSlices(e: Envelope, rest: Bytes)
    requires Encodable(e) && Consistent(e)
    ensures
      var data := Sealed(Body(e)) + rest;
      var end := e.headerLen + e.payloadLen;
      && |Sealed(Body(e))| == end + 4
      && data[..FIXED_HEADER_SIZE] == HeaderBytes(HeaderOf(e))
      && data[FIXED_HEADER_SIZE..e.headerLen] == TextsBytes(TextsOf(e))
      && data[e.headerLen..end] == e.payload
      && data[..end] == Body(e)
      && data[end..end + 4] == Le(Checksum(Body(e)), 4)
  {
    hide HeaderBytes, TextsBytes, Checksum;
    var trailer := Le(Checksum(Body(e)), 4);
    FourSlices(HeaderBytes(HeaderOf(e)), TextsBytes(TextsOf(e)), e.payload, trailer, rest);
  }

  lemma FourSlices(a: Bytes, b: Bytes, c: Bytes, d: Bytes, rest: Bytes)
    ensures
      var data := a + b + c + d + rest;
      var x, y, z := |a|, |a| + |b|, |a| + |b| + |c|;
      && data[..x] == a && data[x..y] == b && data[y..z] == c && data[..z] == a + b + c
      && data[z..z + |d|] == d
  {
  }

  /** Everything `decode` reads from a frame. */
  lemma FrameReads(e: Envelope, rest: Bytes)
    requires Encodable(e) && Consistent(e)
    ensures
      var data := Sealed(Body(e)) + rest;
      var end := e.headerLen + e.payloadLen;
      && |Sealed(Body(e))| == end + 4
      && HasMagic(data)
      && ParseHeader(data) == HeaderOf(e)
      && ParseTexts(data, LengthsOf(e), e.headerLen) == Some(TextsOf(e))
      && data[e.headerLen..end] == e.payload
      && data[..end] == Body(e)
      && U32At(data, end) == Checksum(Body(e))
  {
    var data := Sealed(Body(e)) + rest;
    var end := e.headerLen + e.payloadLen;
    FrameSlices(e, rest);
    HeaderReads(data, HeaderOf(e));
    ParseTextsOfTextsBytes(data, LengthsOf(e), e.headerLen, TextsOf(e));
    PowersOf256();
    FieldReads(data, end, Checksum(Body(e)), 4);
  }

  /**
   A frame printed from a consistent envelope, followed by anything, is accepted: `decode`
   consumes exactly the frame and returns the envelope with the checksum filled in.
   */
  lemma DecodeOfFrame(e: Envelope, rest: Bytes)
    requires Encodable(e) && Consistent(e)
    ensures Decode(Sealed(Body(e)) + rest) == Accepted(Stamped(e), |Sealed(Body(e))|)
  {
    hide HeaderBytes, TextsBytes, ParseTexts, ParseHeader, U32At, Sealed, Body, Checksum;
    FrameReads(e, rest);
    EnvelopeOfHeaderOf(e, Checksum(Body(e)));
  }

  /** The envelope that `encode` actually printed. */
  function Printed(e: Envelope, autoFill: bool, now: u64): Envelope
    requires Encodable(e)
  {
    Stamped(if autoFill then AutoFill(e, now) else e)
  }

  lemma AutoFillConsistent(e: Envelope, now: u64)
    requires Encodable(e)
    ensures Encodable(AutoFill(e, now)) && Consistent(AutoFill(e, now))
    ensures TextsOf(AutoFill(e, now)) == TextsOf(e)
  {
  }

  /**
   Envelope round trip. Whatever `encode` prints, followed by any bytes, decodes: exactly
   the frame is consumed, and only the auto-filled fields and the checksum differ from the
   input.
   */
  lemma RoundTrip(e: Envelope, autoFill: bool, now: u64, rest: Bytes)
    requires Encode(e, autoFill, now) != []
    ensures Encodable(e)
    ensures Decode(Encode(e, autoFill, now) + rest)
         == Accepted(Printed(e, autoFill, now), |Encode(e, autoFill, now)|)
    ensures
      var r := Printed(e, autoFill, now);
      r == e.(headerLen := r.headerLen, payloadLen := r.payloadLen,
              createdAtMs := r.createdAtMs, messageId := r.messageId, checksum := r.checksum)
    ensures !autoFill ==> Printed(e, autoFill, now) == e.(checksum := Checksum(Body(e)))
  {
    if autoFill {
      AutoFillConsistent(e, now);
      DecodeOfFrame(AutoFill(e, now), rest);
    } else {
      DecodeOfFrame(e, rest);
    }
  }

  /** With auto-fill, `encode` refuses exactly the envelopes that fail its field checks. */
  lemma EncodeAccepts(e: Envelope, now: u64)
    ensures Encode(e, true, now) != [] <==> Encodable(e)
    ensures Encodable(e) ==>
      |Encode(e, true, now)| == 84 + |TextsBytes(TextsOf(e))| + |e.payload| < 0x102_0000
  {
    if Encodable(e) {
      AutoFillConsistent(e, now);
      FrameSlices(AutoFill(e, now), []);
    }
  }

  // Canonicity

  predicate ReservedZero(h: Header)
  {
    h.prologue.reserved17 == 0 && h.typing.reserved73 == 0 && h.typing.reserved78 == 0
  }

  /** What acceptance says about the parts that were read. */
  lemma AcceptedParts(data: Bytes)
    requires Decode(data).Accepted?
    ensures
      var e, n := Decode(data).envelope, Decode(data).consumed;
      && FIXED_HEADER_SIZE < |data| && HasMagic(data) && n <= |data|
      && var h := ParseHeader(data);
         var limit := h.prologue.headerLen;
      && h.prologue.major == PROTOCOL_MAJOR && h.prologue.version == HEADER_VERSION
      && h.prologue.schema == SCHEMA_VERSION && KnownEnumerators(h)
      && FIXED_HEADER_SIZE <= limit && n == TotalLength(h)
      && h.prologue.payloadLen <= MAX_PAYLOAD_BYTES
      && ParseTexts(data, h.lengths, limit).Some?
      && var t := ParseTexts(data, h.lengths, limit).value;
      && AcceptableTexts(h, t)
      && U32At(data, n - 4) == Checksum(data[..n - 4])
      && e == EnvelopeOf(h, t, data[limit..n - 4], U32At(data, n - 4))
  {
    hide HasMagic, ParseHeader, ParseTexts, KnownEnumerators, AcceptableTexts, Checksum,
      EnvelopeOf, U32At;
  }

  /** A decoded envelope passes the printer's checks. */
  lemma DecodedEncodable(data: Bytes)
    requires Decode(data).Accepted?
    ensures
      var e, n := Decode(data).envelope, Decode(data).consumed;
      && FIXED_HEADER_SIZE < |data| && n <= |data|
      && Encodable(e) && Consistent(e) && n == e.headerLen + e.payloadLen + 4
      && e.headerLen == ParseHeader(data).prologue.headerLen
      && TextsBytes(TextsOf(e)) == data[FIXED_HEADER_SIZE..e.headerLen]
      && e.payload == data[e.headerLen..n - 4]
      && e.checksum == Checksum(data[..n - 4])
      && HeaderOf(e)
         == (var h := ParseHeader(data);
             h.(prologue := h.prologue.(reserved17 := 0),
                typing := h.typing.(reserved73 := 0, reserved78 := 0)))
  {
    hide Decode, HasMagic, ParsePrologue, ParseTrace, ParseLengths, ParseTyping, ParseTexts,
      TextsBytes, Checksum, U32At, QosOf, FamilyOf, ScopeOf, QosByte, FamilyByte, ScopeByte,
      ValidUid, ValidProfileId;
    AcceptedParts(data);
    var h := ParseHeader(data);
    EnumeratorsRoundTrip(h.prologue.qos);
    EnumeratorsRoundTrip(h.prologue.family);
    EnumeratorsRoundTrip(h.typing.scope);
    TextsBytesOfParseTexts(data, h.lengths, h.prologue.headerLen);
    assert TextsOf(Decode(data).envelope)
        == ParseTexts(data, h.lengths, h.prologue.headerLen).value;
  }

  /** The consumed bytes are those of the envelope when the reserved positions are zero. */
  lemma ConsumedBytes(data: Bytes)
    requires Decode(data).Accepted? && |data| >= FIXED_HEADER_SIZE
    requires ReservedZero(ParseHeader(data))
    ensures
      var e, n := Decode(data).envelope, Decode(data).consumed;
      n <= |data| && Encodable(e) && Sealed(Body(e)) == data[..n]
  {
    hide Decode, HeaderBytes, TextsBytes, ParseHeader, HeaderOf, Checksum, Encodable, ParseTexts,
      AcceptableTexts, KnownEnumerators, EnvelopeOf, HasMagic, FieldLe;
    var e, n := Decode(data).envelope, Decode(data).consumed;
    AcceptedParts(data);
    DecodedEncodable(data);
    HeaderWrites(data);
    FieldWrites(data, n - 4, 4);
    FourJoin(data, FIXED_HEADER_SIZE, e.headerLen, n - 4, n);
  }

  lemma FourJoin(data: Bytes, x: nat, y: nat, z: nat, n: nat)
    requires x <= y <= z <= n <= |data|
    ensures data[..x] + data[x..y] + data[y..z] == data[..z]
    ensures data[..z] + data[z..n] == data[..n]
  {
    assert data[..x] + data[x..y] == data[..y];
  }

  /** A printed frame holds zero in the reserved positions. */
  lemma PrintedReserved(e: Envelope, data: Bytes)
    requires Encodable(e) && Consistent(e)
    requires |Sealed(Body(e))| <= |data| && Sealed(Body(e)) == data[..|Sealed(Body(e))|]
    ensures |data| >= FIXED_HEADER_SIZE && ReservedZero(ParseHeader(data))
  {
    FrameSlices(e, data[|Sealed(Body(e))|..]);
    assert Sealed(Body(e)) + data[|Sealed(Body(e))|..] == data;
    HeaderReads(data, HeaderOf(e));
  }

  /**
   Canonicity. Printing a decoded envelope without auto-fill reproduces exactly the consumed
   bytes if and only if the reserved positions 17, 73, 78 and 79 held zero; `decode` does
   not look at them.
   */
  lemma Canonical(data: Bytes, now: u64)
    requires Decode(data).Accepted?
    ensures
      var e, n := Decode(data).envelope, Decode(data).consumed;
      && |data| >= FIXED_HEADER_SIZE && n <= |data|
      && (Encode(e, false, now) == data[..n] <==> ReservedZero(ParseHeader(data)))
  {
    hide Decode, Body, Sealed, ReservedZero, ParseHeader;
    var e, n := Decode(data).envelope, Decode(data).consumed;
    DecodedEncodable(data);
    if ReservedZero(ParseHeader(data)) {
      ConsumedBytes(data);
    }
    if Encode(e, false, now) == data[..n] {
      PrintedReserved(e, data);
    }
  }

  /**
   What `decode` accepts, without looking into it: among data whose reserved positions are
   zero, exactly the data that begin with a frame `encode` prints.
   */
  lemma AcceptsExactlyPrinted(data: Bytes, now: u64)
    ensures
      Decode(data).Accepted? && ReservedZero(ParseHeader(data)) <==>
      exists e :: Encode(e, false, now) != [] && Encode(e, false, now) <= data
  {
    hide Decode, Encode, ParseHeader, ReservedZero;
    if Decode(data).Accepted? {
      Canonical(data, now);
      DecodedLength(data);
    }
    forall e | Encode(e, false, now) != [] && Encode(e, false, now) <= data
      ensures Decode(data).Accepted? && |data| >= FIXED_HEADER_SIZE
      ensures ReservedZero(ParseHeader(data))
    {
      var frame := Encode(e, false, now);
      RoundTrip(e, false, now, data[|frame|..]);
      assert frame + data[|frame|..] == data;
      UnfilledFrame(e, now);
      PrintedReserved(e, data);
    }
  }

  lemma UnfilledFrame(e: Envelope, now: u64)
    requires Encode(e, false, now) != []
    ensures Encodable(e) && Consistent(e) && Encode(e, false, now) == Sealed(Body(e))
  {
  }

  lemma DecodedLength(data: Bytes)
    requires Decode(data).Accepted?
    ensures 0 < Decode(data).consumed <= |data|
  {
    hide ParseTexts, KnownEnumerators, AcceptableTexts, EnvelopeOf, FieldLe;
  }
}
