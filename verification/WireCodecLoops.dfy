/**
 The codec as the program runs it: a growing output buffer, an advancing cursor and loops
 over the target uids. Each method is proved equal to its specification in `WireCodec`.
 */
module WireCodecLoops {
  import opened ByteLayout
  import opened Fnv
  import opened Wire
  import opened FixedHeader
  import opened WireCodec

  /** The size `encode` adds up for the target list, or nothing at the first invalid uid. */
  method TargetsSize(uids: seq<Bytes>) returns (size: Option<nat>)
    ensures size == if ValidUids(uids) then Some(|TargetBytes(uids)|) else None
  {
    var total := 0;
    for i := 0 to |uids|
      invariant forall j :: 0 <= j < i ==> ValidUid(uids[j])
      invariant total + |TargetBytes(uids[i..])| == |TargetBytes(uids)|
    {
      if !ValidUid(uids[i]) {
        return None;
      }
      assert uids[i..][1..] == uids[i + 1..];
      total := total + 2 + |uids[i]|;
    }
    return Some(total);
  }

  lemma VariableSize(e: Envelope)
    ensures |TextsBytes(TextsOf(e))|
         == |e.source.endpointUid| + |e.source.entityUid| + |TargetBytes(e.target.uids)|
            + |e.security.authTag| + |e.typ.profileId| + |e.typ.typeName|
  {
  }

  /** The checks of `encode`, in its order; the result is the variable size. */
  method CheckEnvelope(e: Envelope) returns (size: Option<nat>)
    ensures size == if Encodable(e) then Some(|TextsBytes(TextsOf(e))|) else None
  {
    hide TargetBytes, TextsBytes;
    if e.protocolMajor != PROTOCOL_MAJOR || e.headerVersion != HEADER_VERSION
       || e.schemaVersion != SCHEMA_VERSION || !ValidUid(e.source.endpointUid)
       || (e.source.entityUid != [] && !ValidUid(e.source.entityUid))
       || !ValidTypeRef(e.typ) || |e.payload| > MAX_PAYLOAD_BYTES
       || |e.target.uids| > 0xFFFF
    {
      return None;
    }
    if e.target.scope.Broadcast? {
      if e.target.uids != [] {
        return None;
      }
    } else if e.target.uids == [] {
      return None;
    }
    var targets := TargetsSize(e.target.uids);
    if targets.None? {
      return None;
    }
    VariableSize(e);
    var variable := |e.source.endpointUid| + |e.source.entityUid| + targets.value
      + |e.security.authTag| + |e.typ.profileId| + |e.typ.typeName|;
    if variable > 0xFFFF - FIXED_HEADER_SIZE || |e.security.authTag| > 0xFFFF {
      return None;
    }
    return Some(variable);
  }

  /** The 80 fixed bytes, appended one field after the other. */
  method AppendFixedHeader(h: Header) returns (out: Bytes)
    ensures out == HeaderBytes(h)
  {
    hide Le;
    out := [0x59, 0x4C, 0x4E, 0x4B];
    out := out + [h.prologue.major, h.prologue.version];
    out := AppendLe(out, h.prologue.flags, 2);
    out := AppendLe(out, h.prologue.headerLen, 2);
    out := AppendLe(out, h.prologue.payloadLen, 4);
    out := out + [h.prologue.qos, h.prologue.family, h.prologue.operation, h.prologue.reserved17];
    out := AppendLe(out, h.prologue.schema, 2);
    assert out == PrologueBytes(h.prologue);
    hide PrologueBytes;
    out := AppendTrace(out, h.trace);
    out := AppendLengths(out, h.lengths);
    out := AppendTyping(out, h.typing);
    hide TraceBytes, LengthsBytes, TypingBytes;
    assert out == HeaderBytes(h);
  }

  method AppendTrace(prefix: Bytes, t: Trace) returns (out: Bytes)
    ensures out == prefix + TraceBytes(t)
  {
    hide Le;
    out := AppendLe(prefix, t.sessionId, 8);
    out := AppendLe(out, t.messageId, 8);
    out := AppendLe(out, t.correlationId, 8);
    out := AppendLe(out, t.createdAtMs, 8);
    out := AppendLe(out, t.ttlMs, 4);
    out := AppendLe(out, t.keyEpoch, 4);
  }

  method AppendLengths(prefix: Bytes, l: Lengths) returns (out: Bytes)
    ensures out == prefix + LengthsBytes(l)
  {
    hide Le;
    out := AppendLe(prefix, l.endpoint, 2);
    out := AppendLe(out, l.entity, 2);
    out := AppendLe(out, l.targets, 2);
    out := AppendLe(out, l.auth, 2);
    out := AppendLe(out, l.profile, 2);
    out := AppendLe(out, l.typeName, 2);
  }

  method AppendTyping(prefix: Bytes, t: Typing) returns (out: Bytes)
    ensures out == prefix + TypingBytes(t)
  {
    hide Le;
    out := prefix + [t.scope] + [t.reserved73];
    out := AppendLe(out, t.major, 2);
    out := AppendLe(out, t.minor, 2);
    out := AppendLe(out, t.reserved78, 2);
  }

  /** The loop that appends each target with its length. */
  method AppendTargets(prefix: Bytes, uids: seq<Bytes>) returns (out: Bytes)
    ensures out == prefix + TargetBytes(uids)
  {
    out := prefix;
    for i := 0 to |uids|
      invariant out + TargetBytes(uids[i..]) == prefix + TargetBytes(uids)
    {
      var rest := TargetBytes(uids[i + 1..]);
      assert uids[i..][1..] == uids[i + 1..];
      AppendSplit(out, Le(|uids[i]|, 2), uids[i], rest);
      out := AppendLe(out, |uids[i]|, 2);
      out := out + uids[i];
    }
  }

  lemma AppendSplit(out: Bytes, a: Bytes, b: Bytes, rest: Bytes)
    ensures out + (a + b + rest) == (out + a + b) + rest
  {
  }

  /** The header, the texts and the payload, in the order they are appended. */
  method AppendBody(value: Envelope) returns (out: Bytes)
    requires Encodable(value)
    ensures out == Body(value)
  {
    hide HeaderBytes, TargetBytes, Encodable;
    out := AppendFixedHeader(HeaderOf(value));
    out := out + value.source.endpointUid + value.source.entityUid;
    out := AppendTargets(out, value.target.uids);
    out := out + value.security.authTag + value.typ.profileId + value.typ.typeName;
    assert out == HeaderBytes(HeaderOf(value)) + TextsBytes(TextsOf(value));
    out := out + value.payload;
  }

  /** `WireCodec::encode`. */
  method EncodeEnvelope(input: Envelope, autoFill: bool, now: u64) returns (out: Bytes)
    ensures out == Encode(input, autoFill, now)
  {
    hide Body, TextsBytes, Checksum, Encodable;
    var size := CheckEnvelope(input);
    if size.None? {
      return [];
    }
    var value := input;
    if autoFill {
      EncodableSize(input);
      value := value.(headerLen := FIXED_HEADER_SIZE + size.value,
                      payloadLen := |value.payload|);
      if value.createdAtMs == 0 {
        value := value.(createdAtMs := now);
      }
      if value.messageId == 0 {
        value := value.(messageId := value.createdAtMs);
      }
      AutoFillConsistent(input, now);
    }
    if value.headerLen != FIXED_HEADER_SIZE + size.value || value.payloadLen != |value.payload| {
      return [];
    }
    out := AppendBody(value);
    var checksum := ComputeFold(Bits32, OFFSET_32, out);
    ChecksumIs(out, checksum);
    out := AppendLe(out, checksum, 4);
  }

  lemma EncodableSize(e: Envelope)
    requires Encodable(e)
    ensures FIXED_HEADER_SIZE + |TextsBytes(TextsOf(e))| < 0x1_0000
    ensures |e.payload| < 0x1_0000_0000
  {
  }

  lemma ChecksumIs(data: Bytes, hash: nat)
    requires hash == Fold(Bits32, OFFSET_32, data)
    ensures hash == Checksum(data)
  {
  }

  /** The loop that reads the target list, advancing the cursor. */
  method ReadTargets(data: Bytes, start: nat, limit: nat, count: nat)
    returns (uids: seq<Bytes>, cursor: nat, ok: bool)
    requires start <= limit <= |data|
    ensures ok <==> ReadUids(data, start, limit, count).Some?
    ensures ok ==> ReadUids(data, start, limit, count) == Some((uids, cursor))
  {
    uids, cursor := [], start;
    ExtendsNothing(ReadUids(data, start, limit, count));
    for i := 0 to count
      invariant start <= cursor <= limit
      invariant Extends(uids, ReadUids(data, cursor, limit, count - i))
             == ReadUids(data, start, limit, count)
    {
      if cursor + 2 > limit {
        return uids, cursor, false;
      }
      var n := ReadLe(data, cursor, 2);
      if n > limit - (cursor + 2) {
        return uids, cursor, false;
      }
      var uid := data[cursor + 2..cursor + 2 + n];
      ExtendsOne(uids, uid, ReadUids(data, cursor + 2 + n, limit, count - i - 1));
      uids := uids + [uid];
      cursor := cursor + 2 + n;
    }
    assert uids + [] == uids;
    ok := true;
  }

  /** What a read of the rest gives when `done` was read before it. */
  function Extends(done: seq<Bytes>, rest: Option<(seq<Bytes>, nat)>): Option<(seq<Bytes>, nat)>
  {
    match rest
    case None => None
    case Some((uids, end)) => Some((done + uids, end))
  }

  lemma ExtendsNothing(rest: Option<(seq<Bytes>, nat)>)
    ensures Extends([], rest) == rest
  {
    if rest.Some? {
      assert [] + rest.value.0 == rest.value.0;
    }
  }

  lemma ExtendsOne(done: seq<Bytes>, uid: Bytes, rest: Option<(seq<Bytes>, nat)>)
    ensures Extends(done + [uid], rest)
         == Extends(done, match rest
                          case None => None
                          case Some((uids, end)) => Some(([uid] + uids, end)))
  {
    if rest.Some? {
      assert done + [uid] + rest.value.0 == done + ([uid] + rest.value.0);
    }
  }

  /** The cursor walk of `decode` over the variable part of the header. */
  method WalkTexts(data: Bytes, l: Lengths, limit: nat) returns (t: Option<Texts>)
    requires FIXED_HEADER_SIZE <= limit <= |data|
    ensures t == ParseTexts(data, l, limit)
  {
    var cursor := FIXED_HEADER_SIZE;
    if l.endpoint > limit - cursor {
      return None;
    }
    var endpoint := data[cursor..cursor + l.endpoint];
    cursor := cursor + l.endpoint;
    if l.entity > limit - cursor {
      return None;
    }
    var entity := data[cursor..cursor + l.entity];
    cursor := cursor + l.entity;
    var uids, next, ok := ReadTargets(data, cursor, limit, l.targets);
    if !ok {
      return None;
    }
    cursor := next;
    if l.auth > limit - cursor {
      return None;
    }
    var auth := data[cursor..cursor + l.auth];
    cursor := cursor + l.auth;
    if l.profile > limit - cursor {
      return None;
    }
    var profile := data[cursor..cursor + l.profile];
    cursor := cursor + l.profile;
    if l.typeName > limit - cursor {
      return None;
    }
    var typeName := data[cursor..cursor + l.typeName];
    cursor := cursor + l.typeName;
    if cursor != limit {
      return None;
    }
    return Some(Texts(endpoint, entity, uids, auth, profile, typeName));
  }

  /** The part of `decode` that runs once the whole frame is there. */
  method DecodeAnnounced(data: Bytes, h: Header) returns (result: DecodeResult)
    requires h.prologue.headerLen >= FIXED_HEADER_SIZE && TotalLength(h) <= |data|
    ensures result == DecodeWhole(data, h)
  {
    hide ParseTexts, FieldLe, KnownEnumerators, AcceptableTexts, EnvelopeOf, Checksum;
    var headerLen, total := h.prologue.headerLen, TotalLength(h);
    if !KnownEnumerators(h) {
      return Rejected(DecodeError, total);
    }
    var texts := WalkTexts(data, h.lengths, headerLen);
    if texts.None? || !AcceptableTexts(h, texts.value) {
      return Rejected(DecodeError, total);
    }
    var wireChecksum := ReadLe(data, total - 4, 4);
    var computed := ComputeFold(Bits32, OFFSET_32, data[..total - 4]);
    ChecksumIs(data[..total - 4], computed);
    if wireChecksum != computed {
      return Rejected(ChecksumMismatch, total);
    }
    return Accepted(EnvelopeOf(h, texts.value, data[headerLen..total - 4], computed), total);
  }

  /** `WireCodec::decode`. */
  method DecodeFrame(data: Bytes) returns (result: DecodeResult)
    ensures result == Decode(data)
  {
    hide FieldLe, ParseTrace, ParseLengths, ParseTyping, DecodeWhole;
    if |data| < MIN_ENVELOPE_SIZE {
      return Rejected(DecodeError, 0);
    }
    if !HasMagic(data) {
      return Rejected(InvalidHeader, 0);
    }
    var h := ParseHeader(data);
    var schema := ReadLe(data, 18, 2);
    if data[4] != PROTOCOL_MAJOR || data[5] != HEADER_VERSION || schema != SCHEMA_VERSION {
      return Rejected(ProtocolMismatch, 0);
    }
    var headerLen := ReadLe(data, 8, 2);
    var payloadLen := ReadLe(data, 10, 4);
    if headerLen < FIXED_HEADER_SIZE || payloadLen > MAX_PAYLOAD_BYTES {
      return Rejected(DecodeError, 0);
    }
    if |data| < headerLen + payloadLen + TRAILER_SIZE {
      return Rejected(DecodeError, 0);
    }
    result := DecodeAnnounced(data, h);
  }
}
