/**
 The Wire v2 envelope and the predicates on its identifiers.

 The enumerations of the program are datatypes, so an envelope built from them always
 holds a named value; the raw byte of an enumeration appears only on the wire.
 */
module Wire {
  import opened ByteLayout

  const PROTOCOL_MAJOR: byte := 2
  const HEADER_VERSION: byte := 2
  const SCHEMA_VERSION: u16 := 2
  const MAX_UID_BYTES := 128
  const MAX_TYPE_NAME_BYTES := 256
  const MAX_PROFILE_ID_BYTES := 128
  const MAX_PAYLOAD_BYTES := 16 * 1024 * 1024

  /** The bytes of a text whose characters are single bytes. */
  function Ascii(text: string): (r: Bytes)
    requires forall i :: 0 <= i < |text| ==> text[i] as int < 0x100
    ensures |r| == |text|
  {
    seq(|text|, i requires 0 <= i < |text| => text[i] as int)
  }

  /** The profile of the built-in types. */
  const CORE_PROFILE: Bytes := Ascii("yunlink.core")

  datatype ErrorCode =
    | NoError | InvalidArgument | EncodeError | DecodeError | ChecksumMismatch | InvalidHeader
    | ProtocolMismatch | Timeout | Unauthorized | RequestRejected | NotFound | Conflict
    | Unsupported | Internal

  datatype MessageFamily =
    | Session | Authority | EntityDirectory | Stream | Action | Rpc | Configuration | Log
    | BulkTransfer

  datatype QosClass = ReliableOrdered | ReliableLatest | BestEffort | Bulk

  datatype TargetScope = Endpoint | Entity | Group | Broadcast

  datatype TypeRef = TypeRef(profileId: Bytes, major: u16, minor: u16, typeName: Bytes)

  datatype SourceIdentity = SourceIdentity(endpointUid: Bytes, entityUid: Bytes)

  datatype SecurityContext = SecurityContext(keyEpoch: u32, authTag: Bytes)

  datatype TargetSelector = TargetSelector(scope: TargetScope, uids: seq<Bytes>)
  {
    /** Whether a receiver with these names is addressed. */
    predicate Matches(endpointUid: Bytes, entityUids: seq<Bytes>, groupUids: seq<Bytes>)
    {
      match scope
      case Broadcast => uids == []
      case Endpoint => endpointUid in uids
      case Entity => exists uid :: uid in uids && uid in entityUids
      case Group => exists uid :: uid in uids && uid in groupUids
    }
  }

  datatype Envelope = Envelope(
    protocolMajor: byte,
    headerVersion: byte,
    flags: u16,
    headerLen: u16,
    payloadLen: u32,
    qos: QosClass,
    family: MessageFamily,
    operation: byte,
    schemaVersion: u16,
    sessionId: u64,
    messageId: u64,
    correlationId: u64,
    source: SourceIdentity,
    target: TargetSelector,
    typ: TypeRef,
    createdAtMs: u64,
    ttlMs: u32,
    payload: Bytes,
    security: SecurityContext,
    checksum: u32)

  predicate UidChar(c: byte)
  {
    || '0' as int <= c <= '9' as int
    || 'A' as int <= c <= 'Z' as int
    || 'a' as int <= c <= 'z' as int
    || c == '.' as int || c == '_' as int || c == ':' as int || c == '-' as int
  }

  predicate ValidUid(value: Bytes)
  {
    && 0 < |value| <= MAX_UID_BYTES
    && forall i :: 0 <= i < |value| ==> UidChar(value[i])
  }

  predicate ValidProfileId(value: Bytes)
  {
    ValidUid(value) && |value| <= MAX_PROFILE_ID_BYTES
  }

  predicate ValidTypeRef(value: TypeRef)
  {
    && ValidProfileId(value.profileId)
    && 0 < |value.typeName| <= MAX_TYPE_NAME_BYTES
    && value.major > 0
  }

  predicate ValidUids(uids: seq<Bytes>)
  {
    forall i :: 0 <= i < |uids| ==> ValidUid(uids[i])
  }

  // The byte of each enumerator, and back.

  function QosByte(qos: QosClass): (r: byte)
    ensures QosOf(r) == Some(qos)
  {
    match qos
    case ReliableOrdered => 1
    case ReliableLatest => 2
    case BestEffort => 3
    case Bulk => 4
  }

  function QosOf(raw: byte): (r: Option<QosClass>)
  {
    match raw
    case 1 => Some(ReliableOrdered)
    case 2 => Some(ReliableLatest)
    case 3 => Some(BestEffort)
    case 4 => Some(Bulk)
    case _ => None
  }

  function FamilyByte(family: MessageFamily): (r: byte)
    ensures FamilyOf(r) == Some(family)
  {
    match family
    case Session => 1
    case Authority => 2
    case EntityDirectory => 3
    case Stream => 4
    case Action => 5
    case Rpc => 6
    case Configuration => 7
    case Log => 8
    case BulkTransfer => 9
  }

  function FamilyOf(raw: byte): (r: Option<MessageFamily>)
  {
    match raw
    case 1 => Some(Session)
    case 2 => Some(Authority)
    case 3 => Some(EntityDirectory)
    case 4 => Some(Stream)
    case 5 => Some(Action)
    case 6 => Some(Rpc)
    case 7 => Some(Configuration)
    case 8 => Some(Log)
    case 9 => Some(BulkTransfer)
    case _ => None
  }

  function ScopeByte(scope: TargetScope): (r: byte)
    ensures ScopeOf(r) == Some(scope)
  {
    match scope
    case Endpoint => 1
    case Entity => 2
    case Group => 3
    case Broadcast => 4
  }

  function ScopeOf(raw: byte): (r: Option<TargetScope>)
  {
    match raw
    case 1 => Some(Endpoint)
    case 2 => Some(Entity)
    case 3 => Some(Group)
    case 4 => Some(Broadcast)
    case _ => None
  }

  /** An enumerator read from the wire is written back as the same byte. */
  lemma EnumeratorsRoundTrip(raw: byte)
    ensures QosOf(raw).Some? ==> QosByte(QosOf(raw).value) == raw
    ensures FamilyOf(raw).Some? ==> FamilyByte(FamilyOf(raw).value) == raw
    ensures ScopeOf(raw).Some? ==> ScopeByte(ScopeOf(raw).value) == raw
  {
  }

  /** `qos_may_drop`: only these frames may be lost to congestion or overflow. */
  predicate Lossy(qos: QosClass)
  {
    qos == BestEffort || qos == Bulk
  }
}
