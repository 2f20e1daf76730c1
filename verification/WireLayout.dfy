/**
 The frame as bytes at fixed positions, the checks of the printer in numbers, and known values
 of the hashes: what an implementation in another language has to agree with.
 */
module WireLayout {
  import opened ByteLayout
  import opened Fnv
  import opened Wire
  import opened FixedHeader
  import opened WireCodec

  // Numbers

  function Digit(data: Bytes, i: nat): int
    requires i < |data|
  {
    data[i]
  }

  /** Little-endian fields, byte by byte. */
  lemma LittleEndian(data: Bytes, at: nat)
    ensures at + 2 <= |data| ==> U16At(data, at) == Digit(data, at) + 256 * Digit(data, at + 1)
    ensures at + 4 <= |data| ==>
      U32At(data, at)
        == Digit(data, at) + 256 * Digit(data, at + 1) + 65536 * Digit(data, at + 2)
           + 16777216 * Digit(data, at + 3)
    ensures at + 8 <= |data| ==>
      U64At(data, at)
        == U32At(data, at) + 4294967296 * U32At(data, at + 4)
  {
    if at + 2 <= |data| {
      FieldStep(data, at, 2);
      FieldStep(data, at + 1, 1);
    }
    if at + 4 <= |data| {
      FourBytes(data, at);
    }
    if at + 8 <= |data| {
      FourBytes(data, at + 4);
      FieldStep(data, at, 8);
      FieldStep(data, at + 1, 7);
      FieldStep(data, at + 2, 6);
      FieldStep(data, at + 3, 5);
    }
  }

  lemma FourBytes(data: Bytes, at: nat)
    requires at + 4 <= |data|
    ensures
      FieldLe(data, at, 4)
        == Digit(data, at) + 256 * Digit(data, at + 1) + 65536 * Digit(data, at + 2)
           + 16777216 * Digit(data, at + 3)
  {
    FieldStep(data, at, 4);
    FieldStep(data, at + 1, 3);
    FieldStep(data, at + 2, 2);
    FieldStep(data, at + 3, 1);
  }

  lemma FieldStep(data: Bytes, at: nat, n: nat)
    requires at + n <= |data| && n > 0
    ensures FieldLe(data, at, n)
         == Digit(data, at) + 256 * (if n == 1 then 0 else FieldLe(data, at + 1, n - 1))
  {
    var b := data[at..at + n];
    assert b[0] == data[at] && b[1..] == data[at + 1..at + n];
  }

  // Positions

  function ClassNumber(qos: QosClass): int
  {
    match qos
    case ReliableOrdered => 1
    case ReliableLatest => 2
    case BestEffort => 3
    case Bulk => 4
  }

  function FamilyNumber(family: MessageFamily): int
  {
    match family
    case Session => 1
    case Authority => 2
    case EntityDirectory => 3
    case Stream => 4
    case Action => 5
    case Rpc => 6
    case Configuration => 7
    case Log => 8
    case BulkTransfer => 9
  }

  function ScopeNumber(scope: TargetScope): int
  {
    match scope
    case Endpoint => 1
    case Entity => 2
    case Group => 3
    case Broadcast => 4
  }

  /** The fixed header, field by field; the times are those of the printed envelope. */
  predicate HeaderAt(f: Bytes, e: Envelope, created: u64, message: u64)
    requires |f| >= 84
  {
    && f[..4] == [0x59, 0x4C, 0x4E, 0x4B] && f[4] == 2 && f[5] == 2
    && U16At(f, 6) == e.flags && U32At(f, 10) == |e.payload|
    && f[14] == ClassNumber(e.qos) && f[15] == FamilyNumber(e.family) && f[16] == e.operation
    && f[17] == 0 && U16At(f, 18) == 2
    && U64At(f, 20) == e.sessionId && U64At(f, 28) == message && U64At(f, 36) == e.correlationId
    && U64At(f, 44) == created && U32At(f, 52) == e.ttlMs && U32At(f, 56) == e.security.keyEpoch
    && U16At(f, 60) == |e.source.endpointUid| && U16At(f, 62) == |e.source.entityUid|
    && U16At(f, 64) == |e.target.uids| && U16At(f, 66) == |e.security.authTag|
    && U16At(f, 68) == |e.typ.profileId| && U16At(f, 70) == |e.typ.typeName|
    && f[72] == ScopeNumber(e.target.scope) && f[73] == 0
    && U16At(f, 74) == e.typ.major && U16At(f, 76) == e.typ.minor && U16At(f, 78) == 0
  }

  /** The variable part: two texts, the targets, three texts, the payload and the checksum. */
  predicate TextsAt(f: Bytes, e: Envelope)
    requires |f| >= 84
  {
    var h := U16At(f, 8);
    var c1 := 80 + |e.source.endpointUid|;
    var c2 := c1 + |e.source.entityUid|;
    var c5 := h - |e.typ.typeName|;
    var c4 := c5 - |e.typ.profileId|;
    var c3 := c4 - |e.security.authTag|;
    && c2 <= c3 && |f| == h + |e.payload| + 4
    && f[80..c1] == e.source.endpointUid && f[c1..c2] == e.source.entityUid
    && f[c2..c3] == TargetBytes(e.target.uids)
    && f[c3..c4] == e.security.authTag && f[c4..c5] == e.typ.profileId
    && f[c5..h] == e.typ.typeName && f[h..h + |e.payload|] == e.payload
    && U32At(f, |f| - 4) == Checksum(f[..|f| - 4])
  }

  /** The creation time that is printed: the caller's, or the clock when there is none. */
  function Created(e: Envelope, autoFill: bool, now: u64): u64
  {
    if autoFill && e.createdAtMs == 0 then now else e.createdAtMs
  }

  /** The message id that is printed: the caller's, or the creation time when there is none. */
  function MessageId(e: Envelope, autoFill: bool, now: u64): u64
  {
    if autoFill && e.messageId == 0 then Created(e, autoFill, now) else e.messageId
  }

  lemma PrintedHeader(v: Envelope)
    requires Encodable(v) && Consistent(v)
    ensures |Sealed(Body(v))| >= 84
    ensures HeaderAt(Sealed(Body(v)), v, v.createdAtMs, v.messageId)
  {
    hide HeaderBytes, TextsBytes, ParseTexts, Checksum, FieldLe, Body, Sealed;
    var f := Sealed(Body(v));
    assert f + [] == f;
    FrameReads(v, []);
  }

  /** The variable part, the payload and the trailer, as one piece each. */
  predicate PartsAt(f: Bytes, v: Envelope)
    requires |f| >= 84
  {
    var h := U16At(f, 8);
    && h == 80 + |TextsBytes(TextsOf(v))| && |f| == h + |v.payload| + 4
    && f[80..h] == TextsBytes(TextsOf(v)) && f[h..h + |v.payload|] == v.payload
    && U32At(f, |f| - 4) == Checksum(f[..|f| - 4])
  }

  lemma PrintedParts(v: Envelope)
    requires Encodable(v) && Consistent(v) && |Sealed(Body(v))| >= 84
    ensures PartsAt(Sealed(Body(v)), v)
  {
    hide HeaderBytes, ParseTexts, Checksum, FieldLe, Body, Sealed, Encodable, ParseHeader, HeaderOf,
      TextsBytes;
    var f := Sealed(Body(v));
    assert f + [] == f;
    FrameReads(v, []);
    FrameSlices(v, []);
    PrintedHeaderLength(v);
  }

  lemma PartsToTexts(f: Bytes, v: Envelope)
    requires |f| >= 84 && PartsAt(f, v)
    ensures TextsAt(f, v)
  {
    hide Checksum, U16At, U32At, TargetBytes, TextsBytes;
    TextsSize(v);
    TextsSlices(f, 80, TextsOf(v));
  }

  lemma PrintedTexts(v: Envelope)
    requires Encodable(v) && Consistent(v) && |Sealed(Body(v))| >= 84
    ensures TextsAt(Sealed(Body(v)), v)
  {
    hide PartsAt, TextsAt, Body, Sealed, Encodable;
    PrintedParts(v);
    PartsToTexts(Sealed(Body(v)), v);
  }

  lemma TextsSize(v: Envelope)
    ensures
      |TextsBytes(TextsOf(v))|
        == |v.source.endpointUid| + |v.source.entityUid| + |TargetBytes(v.target.uids)|
           + |v.security.authTag| + |v.typ.profileId| + |v.typ.typeName|
  {
    hide TargetBytes;
  }

  lemma PrintedHeaderLength(v: Envelope)
    requires Encodable(v) && Consistent(v) && |Sealed(Body(v))| >= 84
    ensures U16At(Sealed(Body(v)), 8) == v.headerLen
  {
    hide HeaderBytes, TextsBytes, ParseTexts, Checksum, FieldLe, Body, Sealed;
    var f := Sealed(Body(v));
    assert f + [] == f;
    FrameReads(v, []);
  }

  /** Everything a frame holds, at the place where it stands. */
  lemma FrameLayout(e: Envelope, autoFill: bool, now: u64)
    requires Encode(e, autoFill, now) != []
    ensures
      var f := Encode(e, autoFill, now);
      && |f| >= 84
      && HeaderAt(f, e, Created(e, autoFill, now), MessageId(e, autoFill, now))
      && TextsAt(f, e)
  {
    hide TextsBytes, Checksum, FieldLe, Body, Sealed, TargetBytes, Encodable;
    if autoFill {
      AutoFillConsistent(e, now);
    }
    var v := if autoFill then AutoFill(e, now) else e;
    PrintedHeader(v);
    PrintedTexts(v);
  }

  /** Each target is its length in two bytes and then its uid, in the order of the list. */
  lemma {:induction false} TargetsLayout(uids: seq<Bytes>, i: nat)
    requires i < |uids| && |uids[i]| < 0x1_0000
    ensures TargetBytes(uids)
         == TargetBytes(uids[..i]) + ([|uids[i]| % 256, |uids[i]| / 256] + uids[i])
            + TargetBytes(uids[i + 1..])
    ensures TargetBytes([]) == []
  {
    if i == 0 {
      assert uids[..0] == [];
      TwoDigits(|uids[0]|);
    } else {
      TargetsLayout(uids[1..], i - 1);
      assert uids[1..][..i - 1] == uids[..i][1..] && uids[1..][i..] == uids[i + 1..];
    }
  }

  lemma TwoDigits(n: nat)
    requires n < 0x1_0000
    ensures Le(n, 2) == [n % 256, n / 256]
  {
    assert Le(n / 256, 1) == [n / 256 % 256] + Le(n / 256 / 256, 0);
  }

  /**
   The times survive. A creation time or a message id of the caller arrives as it was given;
   zero is filled in, the first from the clock, the second from the creation time.
   */
  lemma TimesKept(e: Envelope, now: u64, rest: Bytes)
    requires Encode(e, true, now) != []
    ensures
      var d := Decode(Encode(e, true, now) + rest);
      && d.Accepted?
      && d.envelope.createdAtMs == (if e.createdAtMs == 0 then now else e.createdAtMs)
      && d.envelope.messageId
         == (if e.messageId != 0 then e.messageId
             else if e.createdAtMs != 0 then e.createdAtMs else now)
  {
    hide Decode, Body, Checksum;
    RoundTrip(e, true, now, rest);
  }

  // Limits

  /** Digits and the colon behind them, capital letters, small letters, hyphen, dot, underscore. */
  predicate UidCode(c: int)
  {
    48 <= c <= 58 || 65 <= c <= 90 || 97 <= c <= 122 || c == 45 || c == 46 || c == 95
  }

  predicate Named(uid: Bytes)
  {
    1 <= |uid| <= 128 && forall i :: 0 <= i < |uid| ==> UidCode(uid[i])
  }

  lemma ValidUidMeans(uid: Bytes)
    ensures ValidUid(uid) <==> Named(uid)
  {
    forall c: byte
      ensures UidChar(c) <==> UidCode(c)
    {
    }
  }

  function VariableSize(e: Envelope): nat
  {
    |e.source.endpointUid| + |e.source.entityUid| + TargetsSize(e.target.uids)
    + |e.security.authTag| + |e.typ.profileId| + |e.typ.typeName|
  }

  function TargetsSize(uids: seq<Bytes>): nat
  {
    if uids == [] then 0 else 2 + |uids[0]| + TargetsSize(uids[1..])
  }

  lemma {:induction false} TargetsSizeMeans(uids: seq<Bytes>)
    ensures |TargetBytes(uids)| == TargetsSize(uids)
  {
    if uids != [] {
      TargetsSizeMeans(uids[1..]);
    }
  }

  /** What is printed, in numbers: every condition on an envelope for a frame to come out. */
  lemma PrintsExactly(e: Envelope, now: u64)
    ensures Encode(e, true, now) != [] <==>
      && e.protocolMajor == 2 && e.headerVersion == 2 && e.schemaVersion == 2
      && Named(e.source.endpointUid)
      && (e.source.entityUid == [] || Named(e.source.entityUid))
      && Named(e.typ.profileId) && 1 <= |e.typ.typeName| <= 256 && e.typ.major >= 1
      && |e.payload| <= 16777216
      && |e.target.uids| <= 65535 && (e.target.uids == [] <==> e.target.scope == Broadcast)
      && (forall uid :: uid in e.target.uids ==> Named(uid))
      && |e.security.authTag| <= 65535
      && VariableSize(e) <= 65455
    ensures Encode(e, true, now) != [] ==>
      |Encode(e, true, now)| == 84 + VariableSize(e) + |e.payload|
  {
    hide Encode, ValidUid, Named, TargetBytes, TargetsSize;
    EncodeAccepts(e, now);
    TargetsSizeMeans(e.target.uids);
    ValidUidMeans(e.source.endpointUid);
    ValidUidMeans(e.source.entityUid);
    ValidUidMeans(e.typ.profileId);
    forall uid: Bytes
      ensures ValidUid(uid) <==> Named(uid)
    {
      ValidUidMeans(uid);
    }
    assert |TextsBytes(TextsOf(e))| == VariableSize(e);
    assert Named(e.typ.profileId) ==> |e.typ.profileId| <= 128 by { NamedLength(e.typ.profileId); }
  }

  lemma NamedLength(uid: Bytes)
    ensures Named(uid) ==> |uid| <= 128
  {
  }

  // Known values

  /** The FNV-1a hashes of nothing and of one zero byte, in both widths. */
  lemma KnownHashes()
    ensures Checksum([]) == 0x811C9DC5
    ensures Checksum([0]) == 0x050C5D1F
    ensures Fold(Bits64, OFFSET_64, []) == 0xCBF29CE484222325
    ensures Fold(Bits64, OFFSET_64, [0]) == 0xAF63BD4C8601B7DF
  {
    hide Xor;
    XorZero(0x811C9DC5);
    XorZero(0xCBF29CE484222325);
    assert [0][1..] == [];
    assert 0x811C9DC5 * 16777619 == 0x811D69 * 0x1_0000_0000 + 0x050C5D1F;
    assert 0xCBF29CE484222325 * 1099511628211
        == 0xCBF29CE5DE * 0x1_0000_0000_0000_0000 + 0xAF63BD4C8601B7DF;
  }

  lemma {:induction false} XorZero(a: nat)
    ensures Xor(a, 0) == a
  {
    if a != 0 {
      XorZero(a / 2);
    }
  }
}
