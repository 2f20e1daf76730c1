/**
 Discovery packets: queries and replies of formats 2, 3 and 4, big-endian, authenticated by a
 64-bit FNV-1a tag over the shared secret and the packet.
 */
module Discovery {
  import opened ByteLayout
  import opened Fnv
  import opened Readers
  import opened SessionCodec
  import opened StringMaps
  import opened Wire

  const MAX_DISCOVERY_BYTES := 8192
  const MAX_ATTRIBUTE_COUNT := 32
  const MAX_ATTRIBUTE_KEY_BYTES := 64
  const MAX_ATTRIBUTE_VALUE_BYTES := 512
  const TAG_SIZE := 8

  datatype Availability = Unknown | Online | Degraded | Offline

  datatype Query = Query(nonce: u64, responseWindowMs: u16, format: byte)

  datatype EntitySummary = EntitySummary(
    entityUid: Bytes,
    kind: Bytes,
    displayName: Bytes,
    availability: Availability,
    agentId: u32,
    attributes: StringMap)

  datatype Advertisement = Advertisement(
    endpointUid: Bytes,
    displayName: Bytes,
    tcpListenPort: u16,
    capabilities: seq<Bytes>,
    profiles: seq<ProfileDescriptor>,
    attributes: StringMap,
    entities: seq<EntitySummary>,
    startedAtMs: u64,
    sequence: u64)

  // The tag

  /** `auth_tag`: the hash of the secret, continued over the packet. */
  function Tag(secret: Bytes, data: Bytes): u64
  {
    Fold(Bits64, Fold(Bits64, OFFSET_64, secret), data)
  }

  /** `finish`: refused when the packet would be too large. */
  function Finish(body: Bytes, secret: Bytes): Bytes
  {
    if |body| + TAG_SIZE > MAX_DISCOVERY_BYTES then [] else body + Be(Tag(secret, body), 8)
  }

  predicate Authenticated(bytes: Bytes, secret: Bytes)
  {
    |bytes| >= TAG_SIZE
    && FromBe(bytes[|bytes| - TAG_SIZE..]) == Tag(secret, bytes[..|bytes| - TAG_SIZE])
  }

  lemma FinishAuthenticates(body: Bytes, secret: Bytes)
    requires |body| + TAG_SIZE <= MAX_DISCOVERY_BYTES
    ensures
      var bytes := Finish(body, secret);
      Authenticated(bytes, secret) && bytes[..|bytes| - TAG_SIZE] == body
  {
    hide Fold, Be, FromBe;
    PowersOf256();
    var bytes := Finish(body, secret);
    assert bytes[..|body|] == body && bytes[|body|..] == Be(Tag(secret, body), 8);
    FromBeOfBe(Tag(secret, body), 8);
  }

  /** An authenticated packet is the finished form of its body. */
  lemma AuthenticatedIsFinished(bytes: Bytes, secret: Bytes)
    requires Authenticated(bytes, secret) && |bytes| <= MAX_DISCOVERY_BYTES
    ensures Finish(bytes[..|bytes| - TAG_SIZE], secret) == bytes
  {
    hide Fold, Be, FromBe;
    BeOfFromBe(bytes[|bytes| - TAG_SIZE..]);
  }

  /** Changing any single byte of an authenticated packet, tag included, breaks the tag. */
  lemma OneByteBreaksTag(bytes: Bytes, secret: Bytes, at: nat, x: byte)
    requires Authenticated(bytes, secret) && at < |bytes| && bytes[at] != x
    ensures !Authenticated(bytes[at := x], secret)
  {
    hide Fold, Be, FromBe;
    var n := |bytes| - TAG_SIZE;
    var changed := bytes[at := x];
    if at < n {
      assert changed[n..] == bytes[n..];
      assert changed[..n] == bytes[..n][at := x];
      FoldStart(secret);
      FoldSubstitution(Bits64, Fold(Bits64, OFFSET_64, secret), bytes[..n], at, x);
    } else {
      assert changed[..n] == bytes[..n];
      assert changed[n..][at - n] == x && bytes[n..][at - n] == bytes[at];
      BeOfFromBe(changed[n..]);
      BeOfFromBe(bytes[n..]);
    }
  }

  lemma FoldStart(secret: Bytes)
    ensures Fold(Bits64, OFFSET_64, secret) < MODULUS_64
  {
  }

  // Formats

  function QueryMagic(format: byte): Bytes
  {
    [0x59, 0x4C, 0x51, if format == 4 then 0x34 else if format == 3 then 0x33 else 0x32]
  }

  function ReplyMagic(format: byte): Bytes
  {
    [0x59, 0x4C, 0x52, if format >= 4 then 0x34 else if format >= 3 then 0x33 else 0x32]
  }

  predicate KnownFormat(format: byte)
  {
    2 <= format <= 4
  }

  /** The three magics in the order the readers try them. */
  function FormatOf(b: Bytes, kind: byte): Option<(byte, Bytes)>
  {
    if |b| < 4 || b[..3] != [0x59, 0x4C, kind] then None
    else if b[3] == 0x34 then Some((4, b[4..]))
    else if b[3] == 0x33 then Some((3, b[4..]))
    else if b[3] == 0x32 then Some((2, b[4..]))
    else None
  }

  // Queries

  predicate QueryAllowed(q: Query)
  {
    q.nonce != 0 && q.responseWindowMs != 0 && KnownFormat(q.format)
  }

  function QueryBody(q: Query): Bytes
  {
    QueryMagic(q.format) + (Be(q.nonce, 8) + Be(q.responseWindowMs, 2))
  }

  /** `encode_discovery_query`. */
  function EncodeQuery(q: Query, secret: Bytes): Bytes
  {
    if !QueryAllowed(q) then [] else Finish(QueryBody(q), secret)
  }

  function ParseQuery(b: Bytes): Option<Query>
  {
    var (format, b1) :- FormatOf(b, 0x51);
    var (nonce, b2) :- TakeBe(b1, 8);
    var (window, rest) :- TakeBe(b2, 2);
    if rest != [] || nonce == 0 || window == 0 then None else Some(Query(nonce, window, format))
  }

  /** `decode_discovery_query`. */
  function DecodeQuery(bytes: Bytes, secret: Bytes): Option<Query>
  {
    if |bytes| != 22 || !Authenticated(bytes, secret) then None
    else ParseQuery(bytes[..14])
  }

  lemma ParseQueryBody(q: Query)
    requires QueryAllowed(q)
    ensures ParseQuery(QueryBody(q)) == Some(q) && |QueryBody(q)| == 14
  {
    hide TakeBe, Be;
    PowersOf256();
    var b := QueryBody(q);
    assert b[..3] == [0x59, 0x4C, 0x51] && b[4..] == Be(q.nonce, 8) + Be(q.responseWindowMs, 2);
    TakePutBe(q.nonce, 8, Be(q.responseWindowMs, 2));
    PowersOf256();
    TakePutBe(q.responseWindowMs, 2, []);
    assert Be(q.responseWindowMs, 2) + [] == Be(q.responseWindowMs, 2);
  }

  /** Queries round trip under the same secret if and only if they are allowed at all. */
  lemma QueryRoundTrip(q: Query, secret: Bytes)
    ensures DecodeQuery(EncodeQuery(q, secret), secret) == Some(q) <==> QueryAllowed(q)
    ensures !QueryAllowed(q) ==> EncodeQuery(q, secret) == []
  {
    hide ParseQuery, QueryBody, Authenticated, Finish;
    if QueryAllowed(q) {
      ParseQueryBody(q);
      FinishAuthenticates(QueryBody(q), secret);
      FinishSize(QueryBody(q), secret);
    }
  }

  lemma FinishSize(body: Bytes, secret: Bytes)
    ensures |body| + TAG_SIZE <= MAX_DISCOVERY_BYTES ==>
      |Finish(body, secret)| == |body| + TAG_SIZE
  {
  }

  /** And back: every accepted query packet is the printed form of the query it holds. */
  lemma QueryCanonical(bytes: Bytes, secret: Bytes)
    requires DecodeQuery(bytes, secret).Some?
    ensures EncodeQuery(DecodeQuery(bytes, secret).value, secret) == bytes
  {
    hide TakeBe, Be, Finish, Authenticated;
    AuthenticatedIsFinished(bytes, secret);
    var b := bytes[..14];
    var q := DecodeQuery(bytes, secret).value;
    var (format, b1) := FormatOf(b, 0x51).value;
    PutTakeBe(b1, 8);
    var (nonce, b2) := TakeBe(b1, 8).value;
    PutTakeBe(b2, 2);
    assert Be(q.responseWindowMs, 2) + [] == Be(q.responseWindowMs, 2);
    assert b == b[..3] + [b[3]] + b1;
    assert QueryMagic(format) == [0x59, 0x4C, 0x51] + [b[3]];
  }

  /** No one-byte change of an accepted query is accepted. */
  lemma CorruptQueryRejected(bytes: Bytes, secret: Bytes, at: nat, x: byte)
    requires DecodeQuery(bytes, secret).Some? && at < |bytes| && bytes[at] != x
    ensures DecodeQuery(bytes[at := x], secret).None?
  {
    hide Authenticated, ParseQuery;
    OneByteBreaksTag(bytes, secret, at, x);
  }

  // Replies: the parts

  function PutTextBe(v: Bytes): Bytes
  {
    Be(|v|, 2) + v
  }

  function TakeTextBe(b: Bytes): Option<(Bytes, Bytes)>
  {
    var (n, rest) :- TakeBe(b, 2);
    if |rest| < n then None else Some((rest[..n], rest[n..]))
  }

  lemma TakePutTextBe(v: Bytes, rest: Bytes)
    requires |v| <= 0xFFFF
    ensures TakeTextBe(PutTextBe(v) + rest) == Some((v, rest))
  {
    hide TakeBe, Be;
    PowersOf256();
    TakePutBe(|v|, 2, v + rest);
    assert PutTextBe(v) + rest == Be(|v|, 2) + (v + rest);
    assert (v + rest)[..|v|] == v && (v + rest)[|v|..] == rest;
  }

  /** A list behind its one-byte count. */
  function PutCounted<T>(values: seq<T>, put: T -> Bytes): Bytes
  {
    [|values| % 0x100] + PutAll(values, put)
  }

  function TakeCounted<T>(b: Bytes, take: Bytes -> Option<(T, Bytes)>): Option<(seq<T>, Bytes)>
  {
    if b == [] then None else TakeMany(b[1..], b[0], take)
  }

  lemma TakePutCounted<T>(values: seq<T>, put: T -> Bytes, take: Bytes -> Option<(T, Bytes)>,
                          rest: Bytes)
    requires |values| <= 0xFF && forall v :: v in values ==> ReadsBack(v, put, take)
    ensures TakeCounted(PutCounted(values, put) + rest, take) == Some((values, rest))
    ensures PutCounted(values, put)[0] == |values|
  {
    TakePutAll(values, put, take, rest);
    var b := PutCounted(values, put) + rest;
    assert b[1..] == PutAll(values, put) + rest;
  }

  function PutProfileBe(p: ProfileDescriptor): Bytes
  {
    PutTextBe(p.profileId) + (Be(p.major, 2) + (Be(p.minor, 2) + PutTextBe(p.schemaDigest)))
  }

  function TakeProfileBe(b: Bytes): Option<(ProfileDescriptor, Bytes)>
  {
    var (id, b1) :- TakeTextBe(b);
    var (major, b2) :- TakeBe(b1, 2);
    var (minor, b3) :- TakeBe(b2, 2);
    var (digest, rest) :- TakeTextBe(b3);
    TwoBytesFit(b1);
    TwoBytesFit(b2);
    Some((ProfileDescriptor(id, major, minor, digest), rest))
  }

  lemma TwoBytesFit(b: Bytes)
    ensures TakeBe(b, 2).Some? ==> TakeBe(b, 2).value.0 < 0x1_0000
  {
  }

  lemma TakePutProfileBe(p: ProfileDescriptor, rest: Bytes)
    requires |p.profileId| <= 0xFFFF && |p.schemaDigest| <= 0xFFFF
    ensures TakeProfileBe(PutProfileBe(p) + rest) == Some((p, rest))
  {
    hide TakeBe, Be, TakeTextBe, PutTextBe;
    PowersOf256();
    var b3 := PutTextBe(p.schemaDigest) + rest;
    var b2 := Be(p.minor, 2) + b3;
    var b1 := Be(p.major, 2) + b2;
    assert PutProfileBe(p) + rest == PutTextBe(p.profileId) + b1;
    TakePutTextBe(p.profileId, b1);
    TakePutBe(p.major, 2, b2);
    TakePutBe(p.minor, 2, b3);
    TakePutTextBe(p.schemaDigest, rest);
  }

  // Attributes

  predicate AttributeAllowed(e: Entry)
  {
    && 0 < |e.key| <= MAX_ATTRIBUTE_KEY_BYTES
    && |e.value| <= MAX_ATTRIBUTE_VALUE_BYTES
  }

  predicate AttributesAllowed(m: seq<Entry>)
  {
    |m| <= MAX_ATTRIBUTE_COUNT && forall i :: 0 <= i < |m| ==> AttributeAllowed(m[i])
  }

  function PutEntry(e: Entry): Bytes
  {
    PutTextBe(e.key) + PutTextBe(e.value)
  }

  function TakeEntry(b: Bytes): Option<(Entry, Bytes)>
  {
    var (key, b1) :- TakeTextBe(b);
    if key == [] || |key| > MAX_ATTRIBUTE_KEY_BYTES then None
    else
      var (value, rest) :- TakeTextBe(b1);
      if |value| > MAX_ATTRIBUTE_VALUE_BYTES then None else Some((Entry(key, value), rest))
  }

  function PutAttributes(m: StringMap): Bytes
  {
    PutCounted(m, PutEntry)
  }

  function TakeAttributes(b: Bytes): Option<(StringMap, Bytes)>
  {
    if b == [] || b[0] > MAX_ATTRIBUTE_COUNT then None
    else
      var (entries, rest) :- TakeCounted(b, TakeEntry);
      var m :- EmplaceAll([], entries);
      Some((m, rest))
  }

  lemma TakePutEntry(e: Entry, rest: Bytes)
    requires AttributeAllowed(e)
    ensures TakeEntry(PutEntry(e) + rest) == Some((e, rest))
  {
    hide TakeTextBe, PutTextBe;
    assert PutEntry(e) + rest == PutTextBe(e.key) + (PutTextBe(e.value) + rest);
    TakePutTextBe(e.key, PutTextBe(e.value) + rest);
    TakePutTextBe(e.value, rest);
  }

  lemma TakePutAttributes(m: StringMap, rest: Bytes)
    requires AttributesAllowed(m)
    ensures TakeAttributes(PutAttributes(m) + rest) == Some((m, rest))
  {
    hide TakeEntry, PutEntry;
    forall e, tail: Bytes | e in m
      ensures TakeEntry(PutEntry(e) + tail) == Some((e, tail))
    {
      TakePutEntry(e, tail);
    }
    TakePutCounted(m, PutEntry, TakeEntry, rest);
    assert [] + m == m;
    EmplaceInOrder([], m);
  }

  // Entities

  function AvailabilityByte(a: Availability): (r: byte)
    ensures r < 4 && AvailabilityOf(r) == Some(a)
  {
    match a
    case Unknown => 0
    case Online => 1
    case Degraded => 2
    case Offline => 3
  }

  function AvailabilityOf(raw: byte): Option<Availability>
  {
    match raw
    case 0 => Some(Unknown)
    case 1 => Some(Online)
    case 2 => Some(Degraded)
    case 3 => Some(Offline)
    case _ => None
  }

  /** What a format carries of an entity. */
  function ProjectEntity(e: EntitySummary, format: byte): EntitySummary
  {
    e.(agentId := if format >= 3 then e.agentId else 0,
       attributes := if format >= 4 then e.attributes else [])
  }

  function PutAgent(e: EntitySummary, format: byte): Bytes
  {
    (if format >= 3 then Be(e.agentId, 4) else [])
    + (if format >= 4 then PutAttributes(e.attributes) else [])
  }

  function TakeAgent(b: Bytes, format: byte): Option<((u32, StringMap), Bytes)>
  {
    var (agent, b1) :- TakeAgentId(b, format);
    var (attributes, rest) :- TakeOptionalAttributes(b1, format);
    Some(((agent, attributes), rest))
  }

  function TakeAgentId(b: Bytes, format: byte): Option<(u32, Bytes)>
  {
    if format < 3 then Some((0, b))
    else
      var (agent, rest) :- TakeBe(b, 4);
      FourBytesFit(b);
      Some((agent, rest))
  }

  lemma FourBytesFit(b: Bytes)
    ensures TakeBe(b, 4).Some? ==> TakeBe(b, 4).value.0 < 0x1_0000_0000
  {
  }

  function TakeOptionalAttributes(b: Bytes, format: byte): Option<(StringMap, Bytes)>
  {
    if format < 4 then Some(([], b)) else TakeAttributes(b)
  }

  function PutEntity(format: byte): EntitySummary -> Bytes
  {
    (e: EntitySummary) =>
      PutTextBe(e.entityUid) + (PutTextBe(e.kind) + (PutTextBe(e.displayName)
      + ([AvailabilityByte(e.availability)] + PutAgent(e, format))))
  }

  function TakeEntityOf(b: Bytes, format: byte): Option<(EntitySummary, Bytes)>
  {
    var (uid, b1) :- TakeTextBe(b);
    var (kind, b2) :- TakeTextBe(b1);
    var (name, b3) :- TakeTextBe(b2);
    var (raw, b4) :- TakeU8(b3);
    var availability :- AvailabilityOf(raw);
    var (extra, rest) :- TakeAgent(b4, format);
    Some((EntitySummary(uid, kind, name, availability, extra.0, extra.1), rest))
  }

  function TakeEntity(format: byte): Bytes -> Option<(EntitySummary, Bytes)>
  {
    (b: Bytes) => TakeEntityOf(b, format)
  }

  /** Texts a length prefix can hold, and allowed attributes. */
  predicate EntityFits(e: EntitySummary)
  {
    && |e.entityUid| <= 0xFFFF && |e.kind| <= 0xFFFF && |e.displayName| <= 0xFFFF
    && AttributesAllowed(e.attributes)
  }

  lemma TakePutAgent(e: EntitySummary, format: byte, rest: Bytes)
    requires AttributesAllowed(e.attributes) && ProjectEntity(e, format) == e
    ensures TakeAgent(PutAgent(e, format) + rest, format)
         == Some(((e.agentId, e.attributes), rest))
  {
    hide TakeBe, Be, TakeAttributes, PutAttributes, AttributesAllowed;
    PowersOf256();
    var tail := (if format >= 4 then PutAttributes(e.attributes) else []) + rest;
    assert PutAgent(e, format) + rest == (if format >= 3 then Be(e.agentId, 4) else []) + tail;
    TakePutBe(e.agentId, 4, tail);
    TakePutAttributes(e.attributes, rest);
    assert [] + tail == tail && [] + rest == rest;
  }

  lemma TakePutEntity(e: EntitySummary, format: byte, rest: Bytes)
    requires EntityFits(e) && ProjectEntity(e, format) == e
    ensures TakeEntity(format)(PutEntity(format)(e) + rest) == Some((e, rest))
  {
    hide TakeTextBe, PutTextBe, TakeAgent, PutAgent, AttributesAllowed, ProjectEntity;
    var b4 := PutAgent(e, format) + rest;
    var b3 := [AvailabilityByte(e.availability)] + b4;
    var b2 := PutTextBe(e.displayName) + b3;
    var b1 := PutTextBe(e.kind) + b2;
    assert PutEntity(format)(e) + rest == PutTextBe(e.entityUid) + b1;
    TakePutTextBe(e.entityUid, b1);
    TakePutTextBe(e.kind, b2);
    TakePutTextBe(e.displayName, b3);
    assert b3[1..] == b4;
    TakePutAgent(e, format, rest);
  }

  // Replies

  predicate ProfilesAllowed(profiles: seq<ProfileDescriptor>)
  {
    forall i :: 0 <= i < |profiles| ==>
      ValidProfileId(profiles[i].profileId) && profiles[i].major > 0
  }

  predicate EntitiesAllowed(entities: seq<EntitySummary>)
  {
    forall i :: 0 <= i < |entities| ==>
      ValidUid(entities[i].entityUid) && AttributesAllowed(entities[i].attributes)
  }

  /** `valid_advertisement`. */
  predicate ValidAdvertisement(a: Advertisement)
  {
    && ValidUid(a.endpointUid) && a.tcpListenPort != 0
    && |a.capabilities| <= 0xFF && |a.profiles| <= 0xFF && |a.entities| <= 0xFF
    && AttributesAllowed(a.attributes)
    && ProfilesAllowed(a.profiles)
    && EntitiesAllowed(a.entities)
  }

  function ProjectEntities(entities: seq<EntitySummary>, format: byte): (r: seq<EntitySummary>)
    ensures |r| == |entities|
  {
    seq(|entities|, i requires 0 <= i < |entities| => ProjectEntity(entities[i], format))
  }

  /** What a format carries of an advertisement: agent ids from 3 on, attributes from 4 on. */
  function Project(a: Advertisement, format: byte): Advertisement
  {
    a.(attributes := if format >= 4 then a.attributes else [],
       entities := ProjectEntities(a.entities, format))
  }

  function PutNames(a: Advertisement): Bytes
  {
    PutTextBe(a.endpointUid) + (PutTextBe(a.displayName) + Be(a.tcpListenPort, 2))
  }

  function PutLists(a: Advertisement, format: byte): Bytes
  {
    PutCounted(a.capabilities, PutTextBe) + (PutCounted(a.profiles, PutProfileBe)
    + ((if format >= 4 then PutAttributes(a.attributes) else [])
    + PutCounted(a.entities, PutEntity(format))))
  }

  function PutTimes(a: Advertisement): Bytes
  {
    Be(a.startedAtMs, 8) + Be(a.sequence, 8)
  }

  function PutReplyHead(nonce: u64, format: byte): Bytes
  {
    ReplyMagic(format) + (Be(nonce, 8) + ([PROTOCOL_MAJOR, HEADER_VERSION] + Be(format, 2)))
  }

  function ReplyBody(nonce: u64, format: byte, a: Advertisement): Bytes
  {
    PutReplyHead(nonce, format) + (PutNames(a) + (PutLists(a, format) + PutTimes(a)))
  }

  /** `encode_discovery_reply`. A text too long for its prefix makes the packet too large. */
  function EncodeReply(q: Query, a: Advertisement, secret: Bytes): Bytes
  {
    if q.nonce == 0 || !ValidAdvertisement(a) then []
    else Finish(ReplyBody(q.nonce, q.format, a), secret)
  }

  function TakeReplyHead(b: Bytes, nonce: u64): Option<(byte, Bytes)>
  {
    var (format, b1) :- FormatOf(b, 0x52);
    var (found, b2) :- TakeBe(b1, 8);
    var (protocol, b3) :- TakeU8(b2);
    var (header, b4) :- TakeU8(b3);
    var (schema, rest) :- TakeBe(b4, 2);
    if found != nonce || protocol != PROTOCOL_MAJOR || header != HEADER_VERSION
       || schema != format
    then None
    else Some((format, rest))
  }

  datatype Names = Names(endpointUid: Bytes, displayName: Bytes, port: u16)

  function TakeNames(b: Bytes): Option<(Names, Bytes)>
  {
    var (uid, b1) :- TakeTextBe(b);
    var (name, b2) :- TakeTextBe(b1);
    var (port, rest) :- TakeBe(b2, 2);
    TwoBytesFit(b2);
    Some((Names(uid, name, port), rest))
  }

  datatype Lists = Lists(
    capabilities: seq<Bytes>,
    profiles: seq<ProfileDescriptor>,
    attributes: StringMap,
    entities: seq<EntitySummary>)

  function TakeLists(b: Bytes, format: byte): Option<(Lists, Bytes)>
  {
    var (capabilities, b1) :- TakeCounted(b, TakeTextBe);
    var (profiles, b2) :- TakeCounted(b1, TakeProfileBe);
    var (attributes, b3) :- TakeOptionalAttributes(b2, format);
    var (entities, rest) :- TakeCounted(b3, TakeEntity(format));
    Some((Lists(capabilities, profiles, attributes, entities), rest))
  }

  function TakeTimes(b: Bytes): Option<((u64, u64), Bytes)>
  {
    var (started, b1) :- TakeBe(b, 8);
    var (sequence, rest) :- TakeBe(b1, 8);
    EightBytesFit(b);
    EightBytesFit(b1);
    Some(((started, sequence), rest))
  }

  lemma EightBytesFit(b: Bytes)
    ensures TakeBe(b, 8).Some? ==> TakeBe(b, 8).value.0 < 0x1_0000_0000_0000_0000
  {
  }

  function ParseReply(b: Bytes, nonce: u64): Option<Advertisement>
  {
    var (format, b1) :- TakeReplyHead(b, nonce);
    var (names, b2) :- TakeNames(b1);
    var (lists, b3) :- TakeLists(b2, format);
    var (times, rest) :- TakeTimes(b3);
    var a := Advertisement(names.endpointUid, names.displayName, names.port, lists.capabilities,
                           lists.profiles, lists.attributes, lists.entities, times.0, times.1);
    if rest == [] && ValidAdvertisement(a) then Some(a) else None
  }

  /** `decode_discovery_reply`. */
  function DecodeReply(bytes: Bytes, secret: Bytes, nonce: u64): Option<Advertisement>
  {
    if |bytes| > MAX_DISCOVERY_BYTES || !Authenticated(bytes, secret) then None
    else ParseReply(bytes[..|bytes| - TAG_SIZE], nonce)
  }

  // Replies: parse after print

  lemma TakePutReplyHead(nonce: u64, format: byte, rest: Bytes, expected: u64)
    ensures TakeReplyHead(PutReplyHead(nonce, format) + rest, expected)
         == if expected == nonce && KnownFormat(format) then Some((format, rest)) else None
  {
    hide TakeBe, Be;
    PowersOf256();
    var b4 := Be(format, 2) + rest;
    var b2 := [PROTOCOL_MAJOR, HEADER_VERSION] + b4;
    var b1 := Be(nonce, 8) + b2;
    var b := PutReplyHead(nonce, format) + rest;
    assert b == ReplyMagic(format) + b1;
    assert b[..3] == [0x59, 0x4C, 0x52] && b[4..] == b1;
    TakePutBe(nonce, 8, b2);
    assert b2[1..][1..] == b4;
    TakePutBe(format, 2, rest);
  }

  lemma TakePutNames(a: Advertisement, rest: Bytes)
    requires |a.endpointUid| <= 0xFFFF && |a.displayName| <= 0xFFFF
    ensures TakeNames(PutNames(a) + rest)
         == Some((Names(a.endpointUid, a.displayName, a.tcpListenPort), rest))
  {
    hide TakeBe, Be, TakeTextBe, PutTextBe;
    PowersOf256();
    var b2 := Be(a.tcpListenPort, 2) + rest;
    var b1 := PutTextBe(a.displayName) + b2;
    assert PutNames(a) + rest == PutTextBe(a.endpointUid) + b1;
    TakePutTextBe(a.endpointUid, b1);
    TakePutTextBe(a.displayName, b2);
    TakePutBe(a.tcpListenPort, 2, rest);
  }

  /** Every text of the advertisement fits its length prefix. */
  predicate TextsFit(a: Advertisement)
  {
    && |a.displayName| <= 0xFFFF
    && (forall i :: 0 <= i < |a.capabilities| ==> |a.capabilities[i]| <= 0xFFFF)
    && (forall i :: 0 <= i < |a.profiles| ==> |a.profiles[i].schemaDigest| <= 0xFFFF)
    && (forall i :: 0 <= i < |a.entities| ==>
          |a.entities[i].kind| <= 0xFFFF && |a.entities[i].displayName| <= 0xFFFF)
  }

  lemma TakePutTexts(values: seq<Bytes>, rest: Bytes)
    requires |values| <= 0xFF && forall i :: 0 <= i < |values| ==> |values[i]| <= 0xFFFF
    ensures TakeCounted(PutCounted(values, PutTextBe) + rest, TakeTextBe) == Some((values, rest))
  {
    hide TakeTextBe, PutTextBe, TakeCounted, PutCounted;
    forall v, tail: Bytes | v in values
      ensures TakeTextBe(PutTextBe(v) + tail) == Some((v, tail))
    {
      TakePutTextBe(v, tail);
    }
    TakePutCounted(values, PutTextBe, TakeTextBe, rest);
  }

  lemma TakePutProfiles(values: seq<ProfileDescriptor>, rest: Bytes)
    requires |values| <= 0xFF && ProfilesAllowed(values)
    requires forall i :: 0 <= i < |values| ==> |values[i].schemaDigest| <= 0xFFFF
    ensures TakeCounted(PutCounted(values, PutProfileBe) + rest, TakeProfileBe)
         == Some((values, rest))
  {
    hide TakeProfileBe, PutProfileBe, TakeCounted, PutCounted;
    forall v, tail: Bytes | v in values
      ensures TakeProfileBe(PutProfileBe(v) + tail) == Some((v, tail))
    {
      TakePutProfileBe(v, tail);
    }
    TakePutCounted(values, PutProfileBe, TakeProfileBe, rest);
  }

  lemma TakePutEntities(values: seq<EntitySummary>, format: byte, rest: Bytes)
    requires |values| <= 0xFF && ProjectEntities(values, format) == values
    requires forall i :: 0 <= i < |values| ==> EntityFits(values[i])
    ensures TakeCounted(PutCounted(values, PutEntity(format)) + rest, TakeEntity(format))
         == Some((values, rest))
  {
    hide TakeEntity, PutEntity, TakeCounted, PutCounted, EntityFits, ProjectEntity;
    forall v, tail: Bytes | v in values
      ensures TakeEntity(format)(PutEntity(format)(v) + tail) == Some((v, tail))
    {
      var i :| 0 <= i < |values| && values[i] == v;
      assert ProjectEntities(values, format)[i] == ProjectEntity(v, format);
      TakePutEntity(v, format, tail);
    }
    TakePutCounted(values, PutEntity(format), TakeEntity(format), rest);
  }

  lemma TakePutLists(a: Advertisement, format: byte, rest: Bytes)
    requires ValidAdvertisement(a) && TextsFit(a) && Project(a, format) == a
    ensures TakeLists(PutLists(a, format) + rest, format)
         == Some((Lists(a.capabilities, a.profiles, a.attributes, a.entities), rest))
  {
    hide TakeCounted, PutCounted, TakeAttributes, PutAttributes, ValidUid, ProfilesAllowed,
      AttributesAllowed, ProjectEntities, TakeEntity, PutEntity;
    var b3 := PutCounted(a.entities, PutEntity(format)) + rest;
    var b2 := (if format >= 4 then PutAttributes(a.attributes) else []) + b3;
    var b1 := PutCounted(a.profiles, PutProfileBe) + b2;
    assert PutLists(a, format) + rest == PutCounted(a.capabilities, PutTextBe) + b1;
    TakePutTexts(a.capabilities, b1);
    TakePutProfiles(a.profiles, b2);
    TakePutAttributes(a.attributes, b3);
    assert [] + b3 == b3;
    EntitiesFit(a);
    TakePutEntities(a.entities, format, rest);
  }

  lemma EntitiesFit(a: Advertisement)
    requires ValidAdvertisement(a) && TextsFit(a)
    ensures forall i :: 0 <= i < |a.entities| ==> EntityFits(a.entities[i])
  {
    hide AttributesAllowed;
  }

  lemma TakePutTimes(a: Advertisement)
    ensures TakeTimes(PutTimes(a)) == Some(((a.startedAtMs, a.sequence), []))
  {
    hide TakeBe, Be;
    PowersOf256();
    TakePutBe(a.startedAtMs, 8, Be(a.sequence, 8));
    TakePutBe(a.sequence, 8, []);
    assert Be(a.sequence, 8) + [] == Be(a.sequence, 8);
  }

  lemma ParseReplyBody(nonce: u64, format: byte, a: Advertisement, expected: u64)
    requires ValidAdvertisement(a) && TextsFit(a) && Project(a, format) == a
    ensures ParseReply(ReplyBody(nonce, format, a), expected)
         == if expected == nonce && KnownFormat(format) then Some(a) else None
  {
    hide PutReplyHead, PutNames, PutLists, PutTimes, TakeReplyHead, TakeNames, TakeLists,
      TakeTimes, Project, ProfilesAllowed, EntitiesAllowed, AttributesAllowed;
    var b3 := PutTimes(a);
    var b2 := PutLists(a, format) + b3;
    var b1 := PutNames(a) + b2;
    TakePutReplyHead(nonce, format, b1, expected);
    if expected == nonce && KnownFormat(format) {
      TakePutNames(a, b2);
      TakePutLists(a, format, b3);
      TakePutTimes(a);
    }
  }

  // Only what the format carries is printed

  lemma {:induction false} SamePutEntities(entities: seq<EntitySummary>, format: byte)
    ensures PutAll(ProjectEntities(entities, format), PutEntity(format))
         == PutAll(entities, PutEntity(format))
    decreases |entities|
  {
    if entities != [] {
      assert ProjectEntities(entities, format)[1..] == ProjectEntities(entities[1..], format);
      SamePutEntities(entities[1..], format);
    }
  }

  lemma ProjectionPrintsAlike(nonce: u64, format: byte, a: Advertisement)
    ensures ReplyBody(nonce, format, Project(a, format)) == ReplyBody(nonce, format, a)
    ensures Project(Project(a, format), format) == Project(a, format)
  {
    hide PutReplyHead, PutEntity, PutTextBe, PutAttributes, Be;
    SamePutEntities(a.entities, format);
  }

  lemma ProjectionValid(a: Advertisement, format: byte)
    requires ValidAdvertisement(a) && TextsFit(a)
    ensures ValidAdvertisement(Project(a, format)) && TextsFit(Project(a, format))
  {
    hide ValidUid, ValidProfileId;
  }

  lemma {:induction false} LongText(values: seq<Bytes>, i: nat)
    requires i < |values|
    ensures |PutAll(values, PutTextBe)| >= |values[i]|
  {
    if i > 0 {
      LongText(values[1..], i - 1);
    }
  }

  lemma {:induction false} LongDigest(values: seq<ProfileDescriptor>, i: nat)
    requires i < |values|
    ensures |PutAll(values, PutProfileBe)| >= |values[i].schemaDigest|
  {
    if i > 0 {
      LongDigest(values[1..], i - 1);
    }
  }

  lemma {:induction false} LongEntity(values: seq<EntitySummary>, format: byte, i: nat)
    requires i < |values|
    ensures |PutAll(values, PutEntity(format))| >= |values[i].kind| + |values[i].displayName|
  {
    if i > 0 {
      LongEntity(values[1..], format, i - 1);
    }
  }

  /** A packet of the allowed size holds no text that its prefix cannot express. */
  lemma SmallPacketFits(nonce: u64, format: byte, a: Advertisement)
    requires |ReplyBody(nonce, format, a)| <= 0xFFFF
    ensures TextsFit(a)
  {
    hide PutReplyHead, PutTimes, PutAll, PutAttributes, Be;
    forall i | 0 <= i < |a.capabilities|
      ensures |a.capabilities[i]| <= 0xFFFF
    {
      LongText(a.capabilities, i);
    }
    forall i | 0 <= i < |a.profiles|
      ensures |a.profiles[i].schemaDigest| <= 0xFFFF
    {
      LongDigest(a.profiles, i);
    }
    forall i | 0 <= i < |a.entities|
      ensures |a.entities[i].kind| <= 0xFFFF && |a.entities[i].displayName| <= 0xFFFF
    {
      LongEntity(a.entities, format, i);
    }
  }

  /**
   Replies round trip by version. A printed reply decodes under the same secret, for the nonce
   of its query and no other, to what its format carries of the advertisement, if and only if
   the format of the query is 2, 3 or 4: the printer takes any format number, the reader does
   not.
   */
  lemma ReplyRoundTrip(q: Query, a: Advertisement, secret: Bytes, nonce: u64)
    requires EncodeReply(q, a, secret) != []
    ensures DecodeReply(EncodeReply(q, a, secret), secret, nonce)
         == if nonce == q.nonce && KnownFormat(q.format) then Some(Project(a, q.format)) else None
  {
    hide ReplyBody, ParseReply, Project, ValidAdvertisement, TextsFit, Authenticated, Tag;
    var body := ReplyBody(q.nonce, q.format, a);
    FinishAuthenticates(body, secret);
    SmallPacketFits(q.nonce, q.format, a);
    ProjectionValid(a, q.format);
    ProjectionPrintsAlike(q.nonce, q.format, a);
    ParseReplyBody(q.nonce, q.format, Project(a, q.format), nonce);
  }

  /** An endpoint that offers nothing. */
  function Bare(uid: Bytes, port: u16): Advertisement
  {
    Advertisement(uid, [], port, [], [], [], [], 0, 0)
  }

  lemma BareIsShort(nonce: u64, format: byte, uid: Bytes, port: u16)
    ensures |ReplyBody(nonce, format, Bare(uid, port))| <= 64 + |uid|
  {
    hide Be;
    var a := Bare(uid, port);
    assert |PutNames(a)| == 6 + |uid|;
    assert |PutLists(a, format)| <= 4;
  }

  /**
   The printer takes format numbers that the reader refuses: whatever the format of the query,
   an endpoint that offers nothing prints a reply, and outside 2, 3 and 4 no nonce reads it.
   */
  lemma UnknownFormatPrinted(q: Query, uid: Bytes, port: u16, secret: Bytes, nonce: u64)
    requires q.nonce != 0 && ValidUid(uid) && port != 0
    ensures ValidAdvertisement(Bare(uid, port)) && EncodeReply(q, Bare(uid, port), secret) != []
    ensures !KnownFormat(q.format) ==>
      DecodeReply(EncodeReply(q, Bare(uid, port), secret), secret, nonce) == None
  {
    hide ReplyBody, DecodeReply, Project, Tag, UidChar;
    BareIsShort(q.nonce, q.format, uid, port);
    ReplyRoundTrip(q, Bare(uid, port), secret, nonce);
  }

  /** No one-byte change of an accepted reply is accepted, for any nonce. */
  lemma CorruptReplyRejected(bytes: Bytes, secret: Bytes, nonce: u64, at: nat, x: byte,
                             nonce': u64)
    requires DecodeReply(bytes, secret, nonce).Some? && at < |bytes| && bytes[at] != x
    ensures DecodeReply(bytes[at := x], secret, nonce').None?
  {
    hide Authenticated, ParseReply;
    OneByteBreaksTag(bytes, secret, at, x);
  }

  lemma AuthenticatedSize(bytes: Bytes, secret: Bytes)
    requires Authenticated(bytes, secret)
    ensures |bytes| >= TAG_SIZE
  {
  }

  /** An accepted reply always holds a valid advertisement, and only what a format carries. */
  lemma AcceptedReplyValid(bytes: Bytes, secret: Bytes, nonce: u64)
    requires DecodeReply(bytes, secret, nonce).Some?
    ensures
      var a := DecodeReply(bytes, secret, nonce).value;
      && ValidAdvertisement(a)
      && exists format: byte :: KnownFormat(format) && Project(a, format) == a
  {
    hide Authenticated, TakeNames, TakeBe, TakeTimes, TakeEntity, TakeAttributes,
      ValidAdvertisement, TakeTextBe, TakeProfileBe, TakeLists;
    AuthenticatedSize(bytes, secret);
    var b := bytes[..|bytes| - TAG_SIZE];
    var (format, b1) := TakeReplyHead(b, nonce).value;
    var (_, b2) := TakeNames(b1).value;
    ListsProject(b2, format);
    var a := DecodeReply(bytes, secret, nonce).value;
    assert KnownFormat(format);
    assert Project(a, format) == a;
  }

  lemma ListsProject(b: Bytes, format: byte)
    requires TakeLists(b, format).Some?
    ensures
      var l := TakeLists(b, format).value.0;
      && (format < 4 ==> l.attributes == [])
      && ProjectEntities(l.entities, format) == l.entities
  {
    hide TakeTextBe, TakeProfileBe, TakeAttributes, TakeMany;
    var (_, b1) := TakeCounted(b, TakeTextBe).value;
    var (_, b2) := TakeCounted(b1, TakeProfileBe).value;
    var (_, b3) := TakeOptionalAttributes(b2, format).value;
    forall c: Bytes | TakeEntity(format)(c).Some?
      ensures Carried(format)(TakeEntity(format)(c).value.0)
    {
      EntityProjects(c, format);
    }
    TakenAll(b3[1..], b3[0], TakeEntity(format), Carried(format));
    var es := TakeLists(b, format).value.0.entities;
    assert forall i :: 0 <= i < |es| ==> Carried(format)(es[i]);
  }

  function Carried(format: byte): EntitySummary -> bool
  {
    (e: EntitySummary) => ProjectEntity(e, format) == e
  }

  lemma EntityProjects(b: Bytes, format: byte)
    requires TakeEntity(format)(b).Some?
    ensures Carried(format)(TakeEntity(format)(b).value.0)
  {
    hide TakeTextBe, TakeAttributes, TakeBe;
  }
}
