/**
 Discovery packets as bytes: the tag, every field at its place, when a packet comes out at all,
 and that an accepted reply of format 2 or 3 is the printed one.
 */
module DiscoveryLayout {
  import opened ByteLayout
  import opened Fnv
  import opened Readers
  import opened SessionCodec
  import opened StringMaps
  import opened Wire
  import opened WireLayout
  import opened Discovery

  // Numbers and texts, most significant byte first

  function Two(n: nat): Bytes
  {
    [n / 256 % 256, n % 256]
  }

  function Four(n: nat): Bytes
  {
    Two(n / 0x1_0000) + Two(n)
  }

  function Eight(n: nat): Bytes
  {
    Four(n / 0x1_0000_0000) + Four(n)
  }

  /** A text behind its length in two bytes. */
  function Str(v: Bytes): Bytes
  {
    Two(|v|) + v
  }

  lemma BigEndian(v: nat)
    ensures Be(v, 2) == Two(v) && Be(v, 4) == Four(v) && Be(v, 8) == Eight(v)
  {
    TwoBytes(v);
    FourBytes(v);
    FourBytes(v / 0x1_0000_0000);
    FourMore(v, 4);
  }

  lemma FourBytes(v: nat)
    ensures Be(v, 4) == Four(v)
  {
    FourMore(v, 0);
    assert Be(v / 0x1_0000_0000, 0) == [];
  }

  lemma BeStep(v: nat, n: nat)
    requires n > 0
    ensures Be(v, n) == Be(v / 256, n - 1) + [v % 256]
  {
  }

  lemma FourMore(v: nat, n: nat)
    ensures Be(v, n + 4) == Be(v / 0x1_0000_0000, n) + Four(v)
  {
    hide Be;
    BeStep(v, n + 4);
    BeStep(v / 256, n + 3);
    BeStep(v / 0x1_0000, n + 2);
    BeStep(v / 0x100_0000, n + 1);
    assert v / 256 / 256 == v / 0x1_0000 && v / 0x1_0000 / 256 == v / 0x100_0000;
    assert v / 0x100_0000 / 256 == v / 0x1_0000_0000;
    assert v / 0x1_0000 / 256 % 256 == v / 0x100_0000 % 256;
  }

  lemma TwoBytes(v: nat)
    ensures Be(v, 2) == Two(v)
  {
    assert Be(v / 256, 1) == Be(v / 256 / 256, 0) + [v / 256 % 256];
  }

  // The tag

  lemma {:induction false} FoldConcat(w: Width, hash: nat, a: Bytes, b: Bytes)
    ensures Fold(w, hash, a + b) == Fold(w, Fold(w, hash, a), b)
    decreases a
  {
    hide Step;
    if a == [] {
      assert a + b == b;
    } else {
      assert (a + b)[1..] == a[1..] + b;
      FoldConcat(w, Step(w, hash, a[0]), a[1..], b);
    }
  }

  /** A finished packet: the body, and then the hash of the secret followed by the body. */
  lemma FinishedLayout(body: Bytes, secret: Bytes)
    ensures
      Finish(body, secret)
        == if |body| + 8 > 8192 then []
           else body + Eight(Fold(Bits64, 0xCBF29CE484222325, secret + body))
  {
    hide Fold;
    FoldConcat(Bits64, 0xCBF29CE484222325, secret, body);
    BigEndian(Tag(secret, body));
  }

  // Queries

  /** A query: "YLQ" and the format as a digit, the nonce, the window, the tag. */
  lemma QueryLayout(q: Query, secret: Bytes)
    ensures
      EncodeQuery(q, secret)
        == if q.nonce == 0 || q.responseWindowMs == 0 || q.format < 2 || q.format > 4 then []
           else
             var body := [0x59, 0x4C, 0x51, 0x30 + q.format] + Eight(q.nonce)
                         + Two(q.responseWindowMs);
             body + Eight(Fold(Bits64, 0xCBF29CE484222325, secret + body))
  {
    hide Finish, Be, Fold, Eight;
    BigEndian(q.nonce);
    BigEndian(q.responseWindowMs);
    FinishedLayout(QueryBody(q), secret);
    if QueryAllowed(q) {
      assert QueryBody(q)
          == [0x59, 0x4C, 0x51, 0x30 + q.format] + Eight(q.nonce) + Two(q.responseWindowMs);
      assert |Be(q.nonce, 8)| == 8;
    }
  }

  // Replies

  function ProfileRow(p: ProfileDescriptor): Bytes
  {
    Str(p.profileId) + Two(p.major) + Two(p.minor) + Str(p.schemaDigest)
  }

  function AttributeRow(e: Entry): Bytes
  {
    Str(e.key) + Str(e.value)
  }

  /** A list behind its length in one byte. */
  function List<T>(values: seq<T>, row: T -> Bytes): Bytes
  {
    [|values| % 256] + PutAll(values, row)
  }

  function Attributes(m: StringMap): Bytes
  {
    List(m, AttributeRow)
  }

  function EntityRow(format: byte): EntitySummary -> Bytes
  {
    (e: EntitySummary) =>
      Str(e.entityUid) + Str(e.kind) + Str(e.displayName)
      + [match e.availability case Unknown => 0 case Online => 1 case Degraded => 2 case Offline => 3]
      + (if format >= 3 then Four(e.agentId) else [])
      + (if format >= 4 then Attributes(e.attributes) else [])
  }

  function ReplyTag(format: byte): Bytes
  {
    [0x59, 0x4C, 0x52, if format >= 4 then 0x34 else if format == 3 then 0x33 else 0x32]
  }

  /** A reply without its tag, from the magic to the sequence number. */
  function ReplyBytes(nonce: u64, format: byte, a: Advertisement): Bytes
  {
    var versions: Bytes := [2, 2];
    ReplyTag(format) + Eight(nonce) + versions + Two(format)
    + Str(a.endpointUid) + Str(a.displayName) + Two(a.tcpListenPort)
    + List(a.capabilities, Str) + List(a.profiles, ProfileRow)
    + (if format >= 4 then Attributes(a.attributes) else []) + List(a.entities, EntityRow(format))
    + Eight(a.startedAtMs) + Eight(a.sequence)
  }

  lemma TextRow(v: Bytes)
    ensures PutTextBe(v) == Str(v)
  {
    BigEndian(|v|);
  }

  lemma ProfileRows(p: ProfileDescriptor)
    ensures PutProfileBe(p) == ProfileRow(p)
  {
    hide PutTextBe, Str, Be, Two;
    TextRow(p.profileId);
    TextRow(p.schemaDigest);
    BigEndian(p.major);
    BigEndian(p.minor);
  }

  lemma AttributesLayout(m: StringMap)
    ensures PutAttributes(m) == Attributes(m)
  {
    hide PutTextBe, Str;
    forall e: Entry
      ensures PutEntry(e) == AttributeRow(e)
    {
      TextRow(e.key);
      TextRow(e.value);
    }
    SameRows(m, PutEntry, AttributeRow);
  }

  lemma EntityRows(e: EntitySummary, format: byte)
    ensures PutEntity(format)(e) == EntityRow(format)(e)
  {
    hide PutTextBe, Str, Be, Four, PutAttributes, Attributes;
    TextRow(e.entityUid);
    TextRow(e.kind);
    TextRow(e.displayName);
    BigEndian(e.agentId);
    AttributesLayout(e.attributes);
  }

  lemma ListsLayout(a: Advertisement, format: byte)
    ensures PutAll(a.capabilities, PutTextBe) == PutAll(a.capabilities, Str)
    ensures PutAll(a.profiles, PutProfileBe) == PutAll(a.profiles, ProfileRow)
    ensures PutAll(a.entities, PutEntity(format)) == PutAll(a.entities, EntityRow(format))
  {
    hide PutTextBe, Str, PutProfileBe, ProfileRow, PutEntity, EntityRow;
    forall v: Bytes
      ensures PutTextBe(v) == Str(v)
    {
      TextRow(v);
    }
    forall p: ProfileDescriptor
      ensures PutProfileBe(p) == ProfileRow(p)
    {
      ProfileRows(p);
    }
    forall e: EntitySummary
      ensures PutEntity(format)(e) == EntityRow(format)(e)
    {
      EntityRows(e, format);
    }
    SameRows(a.capabilities, PutTextBe, Str);
    SameRows(a.profiles, PutProfileBe, ProfileRow);
    SameRows(a.entities, PutEntity(format), EntityRow(format));
  }

  lemma SameMagic(format: byte)
    ensures ReplyMagic(format) == ReplyTag(format)
  {
  }

  lemma ReplyBodyLayout(nonce: u64, format: byte, a: Advertisement)
    ensures ReplyBody(nonce, format, a) == ReplyBytes(nonce, format, a)
  {
    hide PutTextBe, Str, Be, Two, Eight, PutAttributes, Attributes, PutAll, PutEntity, EntityRow,
      ReplyMagic, ReplyTag;
    assert ReplyMagic(format) == ReplyTag(format) by { SameMagic(format); }
    BigEndian(nonce);
    BigEndian(format);
    BigEndian(a.tcpListenPort);
    BigEndian(a.startedAtMs);
    BigEndian(a.sequence);
    TextRow(a.endpointUid);
    TextRow(a.displayName);
    AttributesLayout(a.attributes);
    ListsLayout(a, format);
  }

  predicate AttributesWithin(m: StringMap)
  {
    |m| <= 32 && forall i :: 0 <= i < |m| ==> 1 <= |m[i].key| <= 64 && |m[i].value| <= 512
  }

  /** What an advertisement must be to be sent or accepted, in numbers. */
  predicate Advertisable(a: Advertisement)
  {
    && Named(a.endpointUid) && a.tcpListenPort >= 1
    && |a.capabilities| <= 255 && |a.profiles| <= 255 && |a.entities| <= 255
    && AttributesWithin(a.attributes)
    && (forall i :: 0 <= i < |a.profiles| ==>
          Named(a.profiles[i].profileId) && a.profiles[i].major >= 1)
    && (forall i :: 0 <= i < |a.entities| ==>
          Named(a.entities[i].entityUid) && AttributesWithin(a.entities[i].attributes))
  }

  lemma AdvertisableMeans(a: Advertisement)
    ensures ValidAdvertisement(a) <==> Advertisable(a)
  {
    hide ValidUid, Named;
    forall uid: Bytes
      ensures ValidUid(uid) <==> Named(uid)
      ensures Named(uid) ==> |uid| <= 128
    {
      ValidUidMeans(uid);
      NamedLength(uid);
    }
  }

  /** A reply in full: when one is printed, and all of its bytes. */
  lemma ReplyLayout(q: Query, a: Advertisement, secret: Bytes)
    ensures
      var body := ReplyBytes(q.nonce, q.format, a);
      EncodeReply(q, a, secret)
        == if q.nonce == 0 || !Advertisable(a) || |body| > 8184 then []
           else body + Eight(Fold(Bits64, 0xCBF29CE484222325, secret + body))
  {
    hide ReplyBytes, ReplyBody, Finish, Fold, Advertisable, ValidAdvertisement;
    AdvertisableMeans(a);
    ReplyBodyLayout(q.nonce, q.format, a);
    FinishedLayout(ReplyBytes(q.nonce, q.format, a), secret);
  }

  // Print after parse, for the formats without attributes

  lemma PutTakeTextBe(b: Bytes)
    ensures PrintsBack(b, PutTextBe, TakeTextBe)
  {
    hide Be;
    if TakeTextBe(b).Some? {
      PutTakeBe(b, 2);
    }
  }

  lemma PutTakeProfileBe(b: Bytes)
    ensures PrintsBack(b, PutProfileBe, TakeProfileBe)
  {
    hide TakeBe, Be, TakeTextBe, PutTextBe;
    if TakeProfileBe(b).Some? {
      var (id, b1) := TakeTextBe(b).value;
      var (major, b2) := TakeBe(b1, 2).value;
      var (minor, b3) := TakeBe(b2, 2).value;
      PutTakeTextBe(b);
      PutTakeBe(b1, 2);
      PutTakeBe(b2, 2);
      PutTakeTextBe(b3);
    }
  }

  lemma PutTakeEntity(b: Bytes, format: byte)
    requires format < 4
    ensures PrintsBack(b, PutEntity(format), TakeEntity(format))
  {
    hide TakeBe, Be, TakeTextBe, PutTextBe;
    if TakeEntity(format)(b).Some? {
      var (uid, b1) := TakeTextBe(b).value;
      var (kind, b2) := TakeTextBe(b1).value;
      var (name, b3) := TakeTextBe(b2).value;
      var (raw, b4) := TakeU8(b3).value;
      PutTakeTextBe(b);
      PutTakeTextBe(b1);
      PutTakeTextBe(b2);
      assert b3 == [raw] + b4;
      if format >= 3 {
        PutTakeBe(b4, 4);
      }
      var e := TakeEntity(format)(b).value.0;
      assert AvailabilityByte(e.availability) == raw;
      EntityPrints(e, format, TakeEntity(format)(b).value.1, b4);
    }
  }

  lemma EntityPrints(e: EntitySummary, format: byte, rest: Bytes, tail: Bytes)
    requires PutAgent(e, format) + rest == tail
    ensures PutEntity(format)(e) + rest
         == PutTextBe(e.entityUid) + (PutTextBe(e.kind) + (PutTextBe(e.displayName)
            + ([AvailabilityByte(e.availability)] + tail)))
  {
    hide PutTextBe, PutAgent;
  }

  lemma PutTakeCounted<T>(b: Bytes, put: T -> Bytes, take: Bytes -> Option<(T, Bytes)>)
    requires forall c: Bytes :: PrintsBack(c, put, take)
    requires TakeCounted(b, take).Some?
    ensures PutCounted(TakeCounted(b, take).value.0, put) + TakeCounted(b, take).value.1 == b
  {
    PutTakeMany(b[1..], b[0], put, take);
    assert b == [b[0]] + b[1..];
  }

  lemma PutTakeLists(b: Bytes, format: byte, a: Advertisement)
    requires format < 4 && TakeLists(b, format).Some?
    requires
      var l := TakeLists(b, format).value.0;
      a.capabilities == l.capabilities && a.profiles == l.profiles && a.entities == l.entities
    ensures PutLists(a, format) + TakeLists(b, format).value.1 == b
  {
    hide TakeTextBe, PutTextBe, TakeProfileBe, PutProfileBe, TakeEntity, PutEntity, TakeCounted,
      PutCounted;
    forall c: Bytes
      ensures PrintsBack(c, PutTextBe, TakeTextBe)
      ensures PrintsBack(c, PutProfileBe, TakeProfileBe)
      ensures PrintsBack(c, PutEntity(format), TakeEntity(format))
    {
      PutTakeTextBe(c);
      PutTakeProfileBe(c);
      PutTakeEntity(c, format);
    }
    var (_, b1) := TakeCounted(b, TakeTextBe).value;
    var (_, b2) := TakeCounted(b1, TakeProfileBe).value;
    PutTakeCounted(b, PutTextBe, TakeTextBe);
    PutTakeCounted(b1, PutProfileBe, TakeProfileBe);
    PutTakeCounted(b2, PutEntity(format), TakeEntity(format));
  }

  lemma PutTakeHead(b: Bytes, nonce: u64)
    requires TakeReplyHead(b, nonce).Some?
    ensures
      var (format, rest) := TakeReplyHead(b, nonce).value;
      KnownFormat(format) && PutReplyHead(nonce, format) + rest == b
  {
    hide TakeBe, Be;
    var (format, b1) := FormatOf(b, 0x52).value;
    var (_, b2) := TakeBe(b1, 8).value;
    var (_, b3) := TakeU8(b2).value;
    var (_, b4) := TakeU8(b3).value;
    PutTakeBe(b1, 8);
    PutTakeBe(b4, 2);
    assert b2 == [b2[0]] + ([b3[0]] + b4);
    assert b == b[..3] + [b[3]] + b1;
    assert ReplyMagic(format) == [0x59, 0x4C, 0x52] + [b[3]];
  }

  lemma PutTakeNames(b: Bytes, a: Advertisement)
    requires TakeNames(b).Some?
    requires TakeNames(b).value.0 == Names(a.endpointUid, a.displayName, a.tcpListenPort)
    ensures PutNames(a) + TakeNames(b).value.1 == b
  {
    hide TakeBe, Be, TakeTextBe, PutTextBe;
    var (_, b1) := TakeTextBe(b).value;
    var (_, b2) := TakeTextBe(b1).value;
    PutTakeTextBe(b);
    PutTakeTextBe(b1);
    PutTakeBe(b2, 2);
  }

  lemma PutTakeTimes(b: Bytes, a: Advertisement)
    requires TakeTimes(b).Some? && TakeTimes(b).value == ((a.startedAtMs, a.sequence), [])
    ensures PutTimes(a) == b
  {
    hide TakeBe, Be;
    var (_, b1) := TakeBe(b, 8).value;
    PutTakeBe(b, 8);
    PutTakeBe(b1, 8);
    assert Be(a.sequence, 8) + [] == Be(a.sequence, 8);
  }

  lemma ParsedReplyPrints(b: Bytes, nonce: u64)
    requires ParseReply(b, nonce).Some? && b != [] && |b| >= 4 && b[3] != 0x34
    ensures ReplyBody(nonce, b[3] - 0x30, ParseReply(b, nonce).value) == b
    ensures 2 <= b[3] - 0x30 <= 3
  {
    hide TakeReplyHead, PutReplyHead, TakeNames, PutNames, TakeLists, PutLists, TakeTimes, PutTimes,
      ValidAdvertisement;
    var a := ParseReply(b, nonce).value;
    var (format, b1) := TakeReplyHead(b, nonce).value;
    var (_, b2) := TakeNames(b1).value;
    var (_, b3) := TakeLists(b2, format).value;
    HeadFormat(b, nonce);
    PutTakeHead(b, nonce);
    PutTakeNames(b1, a);
    PutTakeLists(b2, format, a);
    PutTakeTimes(b3, a);
  }

  lemma HeadFormat(b: Bytes, nonce: u64)
    requires TakeReplyHead(b, nonce).Some?
    ensures |b| >= 4 && TakeReplyHead(b, nonce).value.0 == b[3] - 0x30
  {
    hide TakeBe;
  }

  /**
   An accepted reply of format 2 or 3 is, byte for byte, the one printed for its nonce, its format
   and the advertisement it holds. (A reply of format 4 may list attributes in any order.)
   */
  lemma ReplyCanonical(bytes: Bytes, secret: Bytes, nonce: u64)
    requires DecodeReply(bytes, secret, nonce).Some?
    ensures 12 <= |bytes| <= 8192 && 0x32 <= bytes[3] <= 0x34
    ensures bytes[3] != 0x34 ==>
      var body := ReplyBytes(nonce, bytes[3] - 0x30, DecodeReply(bytes, secret, nonce).value);
      bytes == body + Eight(Fold(Bits64, 0xCBF29CE484222325, secret + body))
    ensures Advertisable(DecodeReply(bytes, secret, nonce).value)
  {
    hide Authenticated, ParseReply, ReplyBytes, ReplyBody, Fold, Advertisable, ValidAdvertisement,
      Finish, Eight;
    AuthenticatedSize(bytes, secret);
    var b := bytes[..|bytes| - 8];
    ParsedHead(b, nonce);
    AuthenticatedIsFinished(bytes, secret);
    var a := ParseReply(b, nonce).value;
    AdvertisableMeans(a);
    if bytes[3] != 0x34 {
      ParsedReplyPrints(b, nonce);
      ReplyBodyLayout(nonce, b[3] - 0x30, a);
      FinishedLayout(b, secret);
    }
  }

  lemma ParsedHead(b: Bytes, nonce: u64)
    requires ParseReply(b, nonce).Some?
    ensures |b| >= 4 && 0x32 <= b[3] <= 0x34
    ensures ValidAdvertisement(ParseReply(b, nonce).value)
  {
    hide TakeReplyHead, TakeNames, TakeLists, TakeTimes, ValidAdvertisement;
    HeadFormat(b, nonce);
    PutTakeHead(b, nonce);
  }
}
