/**
 The discovery codec as the program runs it: a writer that grows a buffer and remembers an
 oversized text, a reader that advances a cursor, and the loops over the lists of a reply.
 */
module DiscoveryPackets {
  import opened ByteLayout
  import opened Fnv
  import opened Readers
  import opened SessionCodec
  import opened StringMaps
  import opened Wire
  import opened Discovery

  lemma {:induction false} BeSplit(v: nat, n: nat)
    requires n > 0
    ensures Be(v, n) == [v / Pow256(n - 1) % 256] + Be(v, n - 1)
  {
    if n > 1 {
      BeSplit(v / 256, n - 1);
      DivTwice(v, Pow256(n - 2));
    }
  }

  /** `u16`, `u32` and `u64`: the bytes from the most significant one down. */
  method AppendBe(out: Bytes, value: nat, width: nat) returns (r: Bytes)
    ensures r == out + Be(value, width)
  {
    r := out;
    for i := 0 to width
      invariant r + Be(value, width - i) == out + Be(value, width)
    {
      var top := value / Pow256(width - i - 1) % 256;
      BeSplit(value, width - i);
      assert r + ([top] + Be(value, width - i - 1)) == r + [top] + Be(value, width - i - 1);
      r := r + [top];
    }
    assert r + [] == r;
  }

  /** The loop of the readers that shifts and adds. */
  method ReadBe(data: Bytes, at: nat, width: nat) returns (value: nat)
    requires at + width <= |data|
    ensures value == FromBe(data[at..at + width])
  {
    value := 0;
    for i := 0 to width
      invariant value == FromBe(data[at..at + i])
    {
      assert data[at..at + i + 1][..i] == data[at..at + i];
      value := 256 * value + data[at + i];
    }
  }

  /** `auth_tag`. */
  method AuthTag(secret: Bytes, data: Bytes, size: nat) returns (tag: u64)
    requires size <= |data|
    ensures tag == Tag(secret, data[..size])
  {
    hide Fold;
    FoldStart(secret);
    var value := ComputeFold(Bits64, OFFSET_64, secret);
    value := ComputeFold(Bits64, value, data[..size]);
    tag := value;
  }

  // Writing

  class Writer {
    var value: Bytes
    var valid: bool
    /** What the buffer would hold if nothing had been refused. */
    ghost var intended: Bytes

    constructor ()
      ensures Faithful() && intended == []
    {
      value, valid, intended := [], true, [];
    }

    /** Something is refused only when it is too long for any packet. */
    ghost predicate Faithful()
      reads this
    {
      if valid then value == intended else |intended| > 0xFFFF
    }

    method Raw(bytes: Bytes)
      requires Faithful()
      modifies this
      ensures Faithful() && valid == old(valid) && intended == old(intended) + bytes
    {
      intended := intended + bytes;
      value := value + bytes;
    }

    method Number(v: nat, width: nat)
      requires Faithful()
      modifies this
      ensures Faithful() && intended == old(intended) + Be(v, width)
    {
      intended := intended + Be(v, width);
      value := AppendBe(value, v, width);
    }

    /** `text`: a text too long for its prefix is left out and remembered. */
    method Text(v: Bytes)
      requires Faithful()
      modifies this
      ensures Faithful() && intended == old(intended) + PutTextBe(v)
    {
      hide Be;
      ghost var before := intended;
      if |v| > 0xFFFF {
        valid := false;
        intended := intended + PutTextBe(v);
        return;
      }
      Number(|v|, 2);
      Raw(v);
      assert before + Be(|v|, 2) + v == before + PutTextBe(v);
    }

    method Texts(values: seq<Bytes>)
      requires Faithful()
      modifies this
      ensures Faithful() && intended == old(intended) + PutAll(values, PutTextBe)
    {
      hide PutTextBe;
      assert values[0..] == values;
      for i := 0 to |values|
        invariant Faithful()
        invariant intended + PutAll(values[i..], PutTextBe)
               == old(intended) + PutAll(values, PutTextBe)
      {
        assert values[i..][1..] == values[i + 1..];
        Regroup(intended, PutTextBe(values[i]), PutAll(values[i + 1..], PutTextBe));
        Text(values[i]);
      }
      assert intended + [] == intended;
    }

    lemma Regroup(a: Bytes, b: Bytes, c: Bytes)
      ensures a + (b + c) == a + b + c
    {
    }

    method Profile(p: ProfileDescriptor)
      requires Faithful()
      modifies this
      ensures Faithful() && intended == old(intended) + PutProfileBe(p)
    {
      hide PutTextBe, Be;
      Text(p.profileId);
      Number(p.major, 2);
      Number(p.minor, 2);
      Text(p.schemaDigest);
      assert intended == old(intended) + PutProfileBe(p);
    }

    method Profiles(values: seq<ProfileDescriptor>)
      requires Faithful()
      modifies this
      ensures Faithful() && intended == old(intended) + PutAll(values, PutProfileBe)
    {
      hide PutProfileBe;
      assert values[0..] == values;
      for i := 0 to |values|
        invariant Faithful()
        invariant intended + PutAll(values[i..], PutProfileBe)
               == old(intended) + PutAll(values, PutProfileBe)
      {
        assert values[i..][1..] == values[i + 1..];
        Regroup(intended, PutProfileBe(values[i]), PutAll(values[i + 1..], PutProfileBe));
        Profile(values[i]);
      }
      assert intended + [] == intended;
    }

    /** The loop of `attributes`; it stops at the first entry that is not allowed. */
    method Entries(entries: seq<Entry>) returns (allowed: bool)
      requires Faithful()
      modifies this
      ensures allowed <==> forall i :: 0 <= i < |entries| ==> AttributeAllowed(entries[i])
      ensures allowed ==> Faithful() && intended == old(intended) + PutAll(entries, PutEntry)
      ensures !allowed ==> !valid
    {
      hide PutTextBe;
      assert entries[0..] == entries;
      for i := 0 to |entries|
        invariant Faithful()
        invariant forall j :: 0 <= j < i ==> AttributeAllowed(entries[j])
        invariant intended + PutAll(entries[i..], PutEntry)
               == old(intended) + PutAll(entries, PutEntry)
      {
        var e := entries[i];
        if e.key == [] || |e.key| > MAX_ATTRIBUTE_KEY_BYTES
           || |e.value| > MAX_ATTRIBUTE_VALUE_BYTES
        {
          valid := false;
          return false;
        }
        assert entries[i..][1..] == entries[i + 1..];
        Regroup(intended, PutEntry(e), PutAll(entries[i + 1..], PutEntry));
        Regroup(intended, PutTextBe(e.key), PutTextBe(e.value));
        Text(e.key);
        Text(e.value);
      }
      assert intended + [] == intended;
      return true;
    }

    /** `attributes`: too many or too long entries make the writer invalid. */
    method Attributes(m: StringMap)
      requires Faithful()
      modifies this
      ensures AttributesAllowed(m) ==> Faithful() && intended == old(intended) + PutAttributes(m)
      ensures !AttributesAllowed(m) ==> !valid
    {
      hide Ordered, AttributeAllowed, PutAll;
      if |m| > MAX_ATTRIBUTE_COUNT {
        valid := false;
        return;
      }
      Raw([|m|]);
      var allowed := Entries(m);
      Regroup(old(intended), [|m|], PutAll(m, PutEntry));
    }

    /** The body of the loop over the entities. */
    method Entity(e: EntitySummary, format: byte)
      requires Faithful() && AttributesAllowed(e.attributes)
      modifies this
      ensures Faithful() && intended == old(intended) + PutEntity(format)(e)
    {
      hide PutTextBe, Be, PutAttributes, AttributesAllowed;
      Text(e.entityUid);
      Text(e.kind);
      Text(e.displayName);
      Raw([AvailabilityByte(e.availability)]);
      ghost var before := intended;
      if format >= 3 {
        Number(e.agentId, 4);
      } else {
        assert before + [] == before;
      }
      ghost var between := intended;
      if format >= 4 {
        Attributes(e.attributes);
      } else {
        assert between + [] == between;
      }
      assert intended == before + PutAgent(e, format);
      hide PutAgent;
      assert intended == old(intended) + PutEntity(format)(e);
    }

    method Entities(values: seq<EntitySummary>, format: byte)
      requires Faithful() && EntitiesAllowed(values)
      modifies this
      ensures Faithful() && intended == old(intended) + PutAll(values, PutEntity(format))
    {
      hide PutEntity, AttributesAllowed, ValidUid;
      assert values[0..] == values;
      for i := 0 to |values|
        invariant Faithful()
        invariant intended + PutAll(values[i..], PutEntity(format))
               == old(intended) + PutAll(values, PutEntity(format))
      {
        assert values[i..][1..] == values[i + 1..];
        Regroup(intended, PutEntity(format)(values[i]), PutAll(values[i + 1..], PutEntity(format)));
        Entity(values[i], format);
      }
      assert intended + [] == intended;
    }

    /** The four lists of a reply. */
    method Lists(a: Advertisement, format: byte)
      requires Faithful() && ValidAdvertisement(a)
      modifies this
      ensures Faithful() && intended == old(intended) + PutLists(a, format)
    {
      hide PutTextBe, PutProfileBe, PutEntity, PutAll, PutAttributes, ValidUid, ProfilesAllowed,
        AttributesAllowed, EntitiesAllowed;
      Raw([|a.capabilities|]);
      Texts(a.capabilities);
      assert intended == old(intended) + PutCounted(a.capabilities, PutTextBe);
      ghost var s1 := intended;
      Raw([|a.profiles|]);
      Profiles(a.profiles);
      assert intended == s1 + PutCounted(a.profiles, PutProfileBe);
      ghost var s2 := intended;
      if format >= 4 {
        Attributes(a.attributes);
      } else {
        assert s2 + [] == s2;
      }
      ghost var s3 := intended;
      Raw([|a.entities|]);
      Entities(a.entities, format);
      assert intended == s3 + PutCounted(a.entities, PutEntity(format));
      hide PutCounted;
      assert intended == old(intended) + PutLists(a, format);
    }

    /** `finish`. */
    method Finished(secret: Bytes) returns (packet: Bytes)
      requires Faithful()
      modifies this
      ensures packet == Finish(intended, secret) && intended == old(intended)
    {
      hide Tag, Be;
      if !valid || |value| + TAG_SIZE > MAX_DISCOVERY_BYTES {
        return [];
      }
      var tag := AuthTag(secret, value, |value|);
      assert value[..|value|] == value;
      packet := AppendBe(value, tag, 8);
    }
  }

  /** `encode_discovery_query`. */
  method EncodeQueryPacket(q: Query, secret: Bytes) returns (packet: Bytes)
    ensures packet == EncodeQuery(q, secret)
  {
    hide Finish, Be;
    if q.nonce == 0 || q.responseWindowMs == 0 || !KnownFormat(q.format) {
      return [];
    }
    var writer := new Writer();
    writer.Raw(QueryMagic(q.format));
    writer.Number(q.nonce, 8);
    writer.Number(q.responseWindowMs, 2);
    assert writer.intended == QueryBody(q);
    packet := writer.Finished(secret);
  }

  /** `encode_discovery_reply`. */
  method EncodeReplyPacket(q: Query, a: Advertisement, secret: Bytes) returns (packet: Bytes)
    ensures packet == EncodeReply(q, a, secret)
  {
    hide Finish, Be, PutLists, PutTextBe, ValidAdvertisement;
    if q.nonce == 0 || !ValidAdvertisement(a) {
      return [];
    }
    var writer := new Writer();
    writer.Raw(ReplyMagic(q.format));
    writer.Number(q.nonce, 8);
    writer.Raw([PROTOCOL_MAJOR]);
    writer.Raw([HEADER_VERSION]);
    writer.Number(q.format, 2);
    assert writer.intended == PutReplyHead(q.nonce, q.format);
    writer.Text(a.endpointUid);
    writer.Text(a.displayName);
    writer.Number(a.tcpListenPort, 2);
    assert writer.intended == PutReplyHead(q.nonce, q.format) + PutNames(a);
    hide PutReplyHead, PutNames;
    writer.Lists(a, q.format);
    writer.Number(a.startedAtMs, 8);
    writer.Number(a.sequence, 8);
    assert writer.intended == ReplyBody(q.nonce, q.format, a);
    packet := writer.Finished(secret);
  }

  // Reading

  /** The entries read so far in a map, and the rest of them still to come. */
  function Collected(m: StringMap, rest: Option<(seq<Entry>, Bytes)>): Option<(StringMap, Bytes)>
  {
    var (entries, left) :- rest;
    var r :- EmplaceAll(m, entries);
    Some((r, left))
  }

  class Reader {
    const data: Bytes
    const size: nat
    var cursor: nat

    constructor (bytes: Bytes, payloadSize: nat)
      requires payloadSize <= |bytes|
      ensures Inside() && Rest() == bytes[..payloadSize]
    {
      data, size, cursor := bytes, payloadSize, 0;
    }

    ghost predicate Inside()
      reads this
    {
      cursor <= size <= |data|
    }

    ghost function Rest(): Bytes
      requires Inside()
      reads this
    {
      data[cursor..size]
    }

    method Magic(kind: byte, digit: byte) returns (ok: bool)
      requires Inside()
      modifies this
      ensures Inside()
      ensures
        var b := old(Rest());
        && (ok <==> |b| >= 4 && b[..3] == [0x59, 0x4C, kind] && b[3] == digit)
        && Rest() == if ok then b[4..] else b
    {
      if cursor + 4 > size {
        return false;
      }
      assert Rest()[..3] == data[cursor..cursor + 3];
      if data[cursor..cursor + 3] != [0x59, 0x4C, kind] || data[cursor + 3] != digit {
        return false;
      }
      cursor := cursor + 4;
      return true;
    }

    /** The three attempts of the decoders, newest format first. */
    method Format(kind: byte) returns (format: Option<byte>)
      requires Inside()
      modifies this
      ensures Inside() && Took(FormatOf(old(Rest()), kind), format, Rest())
    {
      var four := Magic(kind, 0x34);
      if four {
        return Some(4);
      }
      var three := Magic(kind, 0x33);
      if three {
        return Some(3);
      }
      var two := Magic(kind, 0x32);
      if two {
        return Some(2);
      }
      return None;
    }

    method U8() returns (value: Option<byte>)
      requires Inside()
      modifies this
      ensures Inside() && Took(TakeU8(old(Rest())), value, Rest())
    {
      if cursor + 1 > size {
        return None;
      }
      value := Some(data[cursor]);
      cursor := cursor + 1;
    }

    /** `u16`, `u32` and `u64`. */
    method Number(width: nat) returns (value: Option<nat>)
      requires Inside()
      modifies this
      ensures Inside() && Took(TakeBe(old(Rest()), width), value, Rest())
    {
      if cursor + width > size {
        return None;
      }
      var v := ReadBe(data, cursor, width);
      assert Rest()[..width] == data[cursor..cursor + width];
      assert Rest()[width..] == data[cursor + width..size];
      cursor := cursor + width;
      return Some(v);
    }

    method Text() returns (value: Option<Bytes>)
      requires Inside()
      modifies this
      ensures Inside() && Took(TakeTextBe(old(Rest())), value, Rest())
    {
      hide TakeBe;
      var length := Number(2);
      if length.None? || cursor + length.value > size {
        return None;
      }
      var end := cursor + length.value;
      assert Rest()[..length.value] == data[cursor..end];
      assert Rest()[length.value..] == data[end..size];
      value := Some(data[cursor..end]);
      cursor := end;
    }

    method Texts(count: nat) returns (values: Option<seq<Bytes>>)
      requires Inside()
      modifies this
      ensures Inside() && Took(TakeMany(old(Rest()), count, TakeTextBe), values, Rest())
    {
      hide TakeTextBe;
      var read: seq<Bytes> := [];
      ghost var whole := TakeMany(Rest(), count, TakeTextBe);
      assert whole.Some? ==> [] + whole.value.0 == whole.value.0;
      for i := 0 to count
        invariant Inside()
        invariant whole == Prepended(read, TakeMany(Rest(), count - i, TakeTextBe))
      {
        ReadOneMore(Rest(), count - i, TakeTextBe, read);
        var text := Text();
        if text.None? {
          return None;
        }
        read := read + [text.value];
      }
      assert read + [] == read;
      return Some(read);
    }

    method Profile() returns (value: Option<ProfileDescriptor>)
      requires Inside()
      modifies this
      ensures Inside() && Took(TakeProfileBe(old(Rest())), value, Rest())
    {
      hide TakeTextBe, TakeBe;
      var id := Text();
      if id.None? {
        return None;
      }
      TwoBytesFit(Rest());
      var major := Number(2);
      if major.None? {
        return None;
      }
      TwoBytesFit(Rest());
      var minor := Number(2);
      if minor.None? {
        return None;
      }
      var digest := Text();
      if digest.None? {
        return None;
      }
      return Some(ProfileDescriptor(id.value, major.value, minor.value, digest.value));
    }

    method Profiles(count: nat) returns (values: Option<seq<ProfileDescriptor>>)
      requires Inside()
      modifies this
      ensures Inside() && Took(TakeMany(old(Rest()), count, TakeProfileBe), values, Rest())
    {
      hide TakeProfileBe;
      var read: seq<ProfileDescriptor> := [];
      ghost var whole := TakeMany(Rest(), count, TakeProfileBe);
      assert whole.Some? ==> [] + whole.value.0 == whole.value.0;
      for i := 0 to count
        invariant Inside()
        invariant whole == Prepended(read, TakeMany(Rest(), count - i, TakeProfileBe))
      {
        ReadOneMore(Rest(), count - i, TakeProfileBe, read);
        var profile := Profile();
        if profile.None? {
          return None;
        }
        read := read + [profile.value];
      }
      assert read + [] == read;
      return Some(read);
    }

    /** The body of the loop of `attributes`. */
    method ReadEntry() returns (value: Option<Entry>)
      requires Inside()
      modifies this
      ensures Inside() && Took(TakeEntry(old(Rest())), value, Rest())
    {
      hide TakeTextBe;
      var key := Text();
      if key.None? || key.value == [] || |key.value| > MAX_ATTRIBUTE_KEY_BYTES {
        return None;
      }
      var text := Text();
      if text.None? || |text.value| > MAX_ATTRIBUTE_VALUE_BYTES {
        return None;
      }
      return Some(Entry(key.value, text.value));
    }

    /** `attributes`: entries are emplaced as they are read, and a repeated key ends it. */
    method Attributes() returns (value: Option<StringMap>)
      requires Inside()
      modifies this
      ensures Inside() && Took(TakeAttributes(old(Rest())), value, Rest())
    {
      hide TakeEntry, Emplace;
      ghost var whole := TakeAttributes(Rest());
      var count := U8();
      if count.None? || count.value > MAX_ATTRIBUTE_COUNT {
        return None;
      }
      var m: StringMap := [];
      for i := 0 to count.value
        invariant Inside()
        invariant whole == Collected(m, TakeMany(Rest(), count.value - i, TakeEntry))
      {
        EmplaceRead(m, Rest(), count.value - i);
        var entry := ReadEntry();
        if entry.None? {
          return None;
        }
        var next := Emplace(m, entry.value);
        if next.None? {
          return None;
        }
        m := next.value;
      }
      return Some(m);
    }

    lemma EmplaceRead(m: StringMap, b: Bytes, count: nat)
      requires count > 0
      ensures TakeEntry(b).None? ==> Collected(m, TakeMany(b, count, TakeEntry)).None?
      ensures TakeEntry(b).Some? ==>
        var (e, rest) := TakeEntry(b).value;
        Collected(m, TakeMany(b, count, TakeEntry))
          == if Emplace(m, e).None? then None
             else Collected(Emplace(m, e).value, TakeMany(rest, count - 1, TakeEntry))
    {
      hide TakeEntry, Emplace, Ordered;
      if TakeEntry(b).Some? {
        var (e, rest) := TakeEntry(b).value;
        if TakeMany(rest, count - 1, TakeEntry).Some? {
          var es := TakeMany(rest, count - 1, TakeEntry).value.0;
          assert ([e] + es)[1..] == es;
        }
      }
    }

    /** The body of the loop over the entities. */
    method ReadEntity(format: byte) returns (value: Option<EntitySummary>)
      requires Inside()
      modifies this
      ensures Inside() && Took(TakeEntity(format)(old(Rest())), value, Rest())
    {
      hide TakeTextBe, TakeAttributes, TakeBe;
      var uid := Text();
      if uid.None? {
        return None;
      }
      var kind := Text();
      if kind.None? {
        return None;
      }
      var name := Text();
      if name.None? {
        return None;
      }
      var raw := U8();
      if raw.None? || AvailabilityOf(raw.value).None? {
        return None;
      }
      var agentId: u32 := 0;
      if format >= 3 {
        FourBytesFit(Rest());
        var agent := Number(4);
        if agent.None? {
          return None;
        }
        agentId := agent.value;
      }
      var attributes: StringMap := [];
      if format >= 4 {
        var read := Attributes();
        if read.None? {
          return None;
        }
        attributes := read.value;
      }
      return Some(EntitySummary(uid.value, kind.value, name.value, AvailabilityOf(raw.value).value,
                                agentId, attributes));
    }

    method Entities(count: nat, format: byte) returns (values: Option<seq<EntitySummary>>)
      requires Inside()
      modifies this
      ensures Inside() && Took(TakeMany(old(Rest()), count, TakeEntity(format)), values, Rest())
    {
      hide TakeEntity;
      var read: seq<EntitySummary> := [];
      ghost var whole := TakeMany(Rest(), count, TakeEntity(format));
      assert whole.Some? ==> [] + whole.value.0 == whole.value.0;
      for i := 0 to count
        invariant Inside()
        invariant whole == Prepended(read, TakeMany(Rest(), count - i, TakeEntity(format)))
      {
        ReadOneMore(Rest(), count - i, TakeEntity(format), read);
        var entity := ReadEntity(format);
        if entity.None? {
          return None;
        }
        read := read + [entity.value];
      }
      assert read + [] == read;
      return Some(read);
    }

    /** The head of a reply: magic, nonce and versions. */
    method ReplyHead(nonce: u64) returns (format: Option<byte>)
      requires Inside()
      modifies this
      ensures Inside() && Took(TakeReplyHead(old(Rest()), nonce), format, Rest())
    {
      hide TakeBe, FormatOf;
      format := Format(0x52);
      if format.None? {
        return None;
      }
      var found := Number(8);
      if found.None? || found.value != nonce {
        return None;
      }
      var protocol := U8();
      if protocol.None? || protocol.value != PROTOCOL_MAJOR {
        return None;
      }
      var header := U8();
      if header.None? || header.value != HEADER_VERSION {
        return None;
      }
      var schema := Number(2);
      if schema.None? || schema.value != format.value {
        return None;
      }
    }

    method ReplyNames() returns (names: Option<Names>)
      requires Inside()
      modifies this
      ensures Inside() && Took(TakeNames(old(Rest())), names, Rest())
    {
      hide TakeBe, TakeTextBe;
      var uid := Text();
      if uid.None? {
        return None;
      }
      var name := Text();
      if name.None? {
        return None;
      }
      TwoBytesFit(Rest());
      var port := Number(2);
      if port.None? {
        return None;
      }
      return Some(Names(uid.value, name.value, port.value));
    }

    method ReplyLists(format: byte) returns (lists: Option<Lists>)
      requires Inside()
      modifies this
      ensures Inside() && Took(TakeLists(old(Rest()), format), lists, Rest())
    {
      hide TakeMany, TakeTextBe, TakeProfileBe, TakeAttributes, TakeEntity;
      var count := U8();
      if count.None? {
        return None;
      }
      var capabilities := Texts(count.value);
      if capabilities.None? {
        return None;
      }
      count := U8();
      if count.None? {
        return None;
      }
      var profiles := Profiles(count.value);
      if profiles.None? {
        return None;
      }
      var attributes: StringMap := [];
      if format >= 4 {
        var read := Attributes();
        if read.None? {
          return None;
        }
        attributes := read.value;
      }
      count := U8();
      if count.None? {
        return None;
      }
      var entities := Entities(count.value, format);
      if entities.None? {
        return None;
      }
      return Some(Lists(capabilities.value, profiles.value, attributes, entities.value));
    }
  }

  /** `authenticated`. */
  method IsAuthenticated(bytes: Bytes, secret: Bytes) returns (ok: bool)
    ensures ok <==> Authenticated(bytes, secret)
  {
    hide Tag;
    if |bytes| < TAG_SIZE {
      return false;
    }
    var payloadSize := |bytes| - TAG_SIZE;
    var supplied := ReadBe(bytes, payloadSize, TAG_SIZE);
    assert bytes[payloadSize..payloadSize + TAG_SIZE] == bytes[payloadSize..];
    var expected := AuthTag(secret, bytes, payloadSize);
    return supplied == expected;
  }

  /** `decode_discovery_query`. */
  method DecodeQueryPacket(bytes: Bytes, secret: Bytes) returns (query: Option<Query>)
    ensures query == DecodeQuery(bytes, secret)
  {
    hide Authenticated, TakeBe, FormatOf;
    if |bytes| != 22 {
      return None;
    }
    var ok := IsAuthenticated(bytes, secret);
    if !ok {
      return None;
    }
    var reader := new Reader(bytes, |bytes| - TAG_SIZE);
    var format := reader.Format(0x51);
    if format.None? {
      return None;
    }
    EightBytesFit(reader.Rest());
    var nonce := reader.Number(8);
    if nonce.None? {
      return None;
    }
    TwoBytesFit(reader.Rest());
    var window := reader.Number(2);
    if window.None? || reader.cursor != reader.size || nonce.value == 0 || window.value == 0 {
      return None;
    }
    return Some(Query(nonce.value, window.value, format.value));
  }

  /** `decode_discovery_reply`. */
  method DecodeReplyPacket(bytes: Bytes, secret: Bytes, nonce: u64)
    returns (advertisement: Option<Advertisement>)
    ensures advertisement == DecodeReply(bytes, secret, nonce)
  {
    hide Authenticated, TakeBe, TakeReplyHead, TakeNames, TakeLists, ValidAdvertisement;
    if |bytes| > MAX_DISCOVERY_BYTES {
      return None;
    }
    var ok := IsAuthenticated(bytes, secret);
    if !ok {
      return None;
    }
    AuthenticatedSize(bytes, secret);
    var reader := new Reader(bytes, |bytes| - TAG_SIZE);
    var format := reader.ReplyHead(nonce);
    if format.None? {
      return None;
    }
    var names := reader.ReplyNames();
    if names.None? {
      return None;
    }
    var lists := reader.ReplyLists(format.value);
    if lists.None? {
      return None;
    }
    EightBytesFit(reader.Rest());
    var started := reader.Number(8);
    if started.None? {
      return None;
    }
    EightBytesFit(reader.Rest());
    var sequence := reader.Number(8);
    if sequence.None? {
      return None;
    }
    var parsed := Advertisement(names.value.endpointUid, names.value.displayName,
                                names.value.port, lists.value.capabilities,
                                lists.value.profiles, lists.value.attributes,
                                lists.value.entities, started.value, sequence.value);
    if reader.cursor != reader.size || !ValidAdvertisement(parsed) {
      return None;
    }
    return Some(parsed);
  }
}
