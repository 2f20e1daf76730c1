/**
 Core payloads with nested lists and ordered maps: the entity directory and the log list.
 */
module CoreMessages {
  import opened ByteLayout
  import opened Readers
  import opened StringMaps
  import opened Wire
  import opened Codecs

  const MAX_U16: u16 := 0xFFFF

  type i32 = x: int | -0x8000_0000 <= x < 0x8000_0000

  /** The availability is the raw enumerator, which the writer does not check. */
  datatype EntityDescriptor = EntityDescriptor(
    entityUid: Bytes,
    kind: Bytes,
    displayName: Bytes,
    hardwareId: Bytes,
    attributes: StringMap,
    capabilities: seq<Bytes>,
    availability: byte)

  datatype EntityDirectory = EntityDirectory(
    endpointUid: Bytes,
    revision: Bytes,
    entities: seq<EntityDescriptor>)

  datatype LogSummary = LogSummary(
    logUid: Bytes,
    ownerUid: Bytes,
    title: Bytes,
    state: Bytes,
    startedAtNs: u64,
    finishedAtNs: u64,
    hasExitCode: bool,
    exitCode: i32,
    labels: StringMap,
    message: Bytes)

  datatype LogListResponse = LogListResponse(success: bool, message: Bytes, logs: seq<LogSummary>)

  // The parts

  function Text(): Codec<Bytes>
  {
    TextCodec(MAX_U16)
  }

  /** A uid: any text is written, only valid ones are read. */
  function Uid(): Codec<Bytes>
  {
    Checked(Text(), ValidUid)
  }

  function Texts(): Codec<seq<Bytes>>
  {
    Vector(Text(), MAX_U16)
  }

  lemma TextRoundTrips()
    ensures RoundTrips(Text()) && RoundTrips(Uid()) && RoundTrips(Texts())
  {
    hide RoundTrips, Canonical, Checked, Vector;
    TextLaws(MAX_U16);
    CheckedLaws(Text(), ValidUid);
    VectorRoundTrips(Text(), MAX_U16);
  }

  // Ordered maps

  function PutEntry(e: Entry): Bytes
  {
    PutText(e.key) + PutText(e.value)
  }

  function TakeEntry(b: Bytes): Option<(Entry, Bytes)>
  {
    var (key, b1) :- TakeText(b);
    var (value, rest) :- TakeText(b1);
    Some((Entry(key, value), rest))
  }

  /** `string_map`: keys in any order, and no key twice. */
  function TakeMap(b: Bytes): Option<(StringMap, Bytes)>
  {
    var (count, b1) :- TakeU16(b);
    var (entries, rest) :- TakeMany(b1, count, TakeEntry);
    var m :- EmplaceAll([], entries);
    Some((m, rest))
  }

  predicate MapWithin(m: StringMap)
  {
    |m| <= 0xFFFF
    && forall i :: 0 <= i < |m| ==> |m[i].key| <= 0xFFFF && |m[i].value| <= 0xFFFF
  }

  function PutMap(m: StringMap): Bytes
  {
    Le(|m|, 2) + PutAll(m, PutEntry)
  }

  function MapCodec(): Codec<StringMap>
  {
    Codec(MapWithin, (m: StringMap) => true, PutMap, TakeMap)
  }

  lemma EntryReadBack(e: Entry, rest: Bytes)
    requires |e.key| <= 0xFFFF && |e.value| <= 0xFFFF
    ensures TakeEntry(PutEntry(e) + rest) == Some((e, rest))
  {
    hide TakeText, PutText;
    assert PutEntry(e) + rest == PutText(e.key) + (PutText(e.value) + rest);
    TakePutText(e.key, PutText(e.value) + rest);
    TakePutText(e.value, rest);
  }

  lemma MapReadBack(m: StringMap, rest: Bytes)
    requires MapWithin(m)
    ensures TakeMap(PutMap(m) + rest) == Some((m, rest))
  {
    hide TakeEntry, PutEntry, TakeLe;
    forall e, tail: Bytes | e in m
      ensures TakeEntry(PutEntry(e) + tail) == Some((e, tail))
    {
      EntryReadBack(e, tail);
    }
    TakePutAll(m, PutEntry, TakeEntry, rest);
    TakeLePut(|m|, 2, PutAll(m, PutEntry) + rest);
    assert PutMap(m) + rest == Le(|m|, 2) + (PutAll(m, PutEntry) + rest);
    assert [] + m == m;
    EmplaceInOrder([], m);
  }

  lemma MapRoundTrips()
    ensures RoundTrips(MapCodec())
  {
    hide TakeMap, PutMap, MapWithin;
    forall m: StringMap, rest: Bytes | MapWithin(m)
      ensures TakeMap(PutMap(m) + rest) == Some((m, rest))
    {
      MapReadBack(m, rest);
    }
  }

  // Entities

  type EntityFields =
    (Bytes, (Bytes, (Bytes, (Bytes, (StringMap, (seq<Bytes>, byte))))))

  function EntityBack(): Codec<(StringMap, (seq<Bytes>, byte))>
  {
    Pair(MapCodec(), Pair(Texts(), EnumCodec(0, 3)))
  }

  function EntityFieldsCodec(): Codec<EntityFields>
  {
    Pair(Uid(), Pair(Text(), Pair(Text(), Pair(Text(), EntityBack()))))
  }

  function ToEntity(p: EntityFields): EntityDescriptor
  {
    EntityDescriptor(p.0, p.1.0, p.1.1.0, p.1.1.1.0, p.1.1.1.1.0, p.1.1.1.1.1.0, p.1.1.1.1.1.1)
  }

  function FromEntity(e: EntityDescriptor): EntityFields
  {
    (e.entityUid, (e.kind, (e.displayName, (e.hardwareId,
     (e.attributes, (e.capabilities, e.availability))))))
  }

  function EntityCodec(): Codec<EntityDescriptor>
  {
    Mapped(EntityFieldsCodec(), ToEntity, FromEntity)
  }

  lemma EntityRoundTrips()
    ensures RoundTrips(EntityCodec())
  {
    hide RoundTrips, Canonical, Pair, Mapped, Text, Uid, Texts, MapCodec, EnumCodec;
    TextRoundTrips();
    MapRoundTrips();
    EnumLaws(0, 3);
    PairRoundTrips(Texts(), EnumCodec(0, 3));
    PairRoundTrips(MapCodec(), Pair(Texts(), EnumCodec(0, 3)));
    PairRoundTrips(Text(), EntityBack());
    PairRoundTrips(Text(), Pair(Text(), EntityBack()));
    PairRoundTrips(Text(), Pair(Text(), Pair(Text(), EntityBack())));
    PairRoundTrips(Uid(), Pair(Text(), Pair(Text(), Pair(Text(), EntityBack()))));
    MappedLaws(EntityFieldsCodec(), ToEntity, FromEntity);
  }

  predicate EntityWithin(e: EntityDescriptor)
  {
    && |e.entityUid| <= 0xFFFF && |e.kind| <= 0xFFFF && |e.displayName| <= 0xFFFF
    && |e.hardwareId| <= 0xFFFF && MapWithin(e.attributes) && |e.capabilities| <= 0xFFFF
    && forall i :: 0 <= i < |e.capabilities| ==> |e.capabilities[i]| <= 0xFFFF
  }

  /** What only the reader checks of an entity. */
  predicate EntityReadable(e: EntityDescriptor)
  {
    ValidUid(e.entityUid) && e.availability <= 3
  }

  lemma TextsLimits(vs: seq<Bytes>)
    ensures Texts().fits(vs)
       <==> |vs| <= 0xFFFF && forall i :: 0 <= i < |vs| ==> |vs[i]| <= 0xFFFF
    ensures Texts().good(vs)
  {
  }

  lemma EntityLimits(e: EntityDescriptor)
    ensures EntityCodec().fits(e) <==> EntityWithin(e)
    ensures EntityCodec().good(e) <==> EntityReadable(e)
  {
    hide Pair, Mapped, Texts, ValidUid;
    TextsLimits(e.capabilities);
    var back := (e.attributes, (e.capabilities, e.availability));
    MappedMeans(EntityFieldsCodec(), ToEntity, FromEntity, e);
    PairMeans(Texts(), EnumCodec(0, 3), e.capabilities, e.availability);
    PairMeans(MapCodec(), Pair(Texts(), EnumCodec(0, 3)), e.attributes, back.1);
    var c3 := Pair(Text(), EntityBack());
    PairMeans(Text(), EntityBack(), e.hardwareId, back);
    PairMeans(Text(), c3, e.displayName, (e.hardwareId, back));
    PairMeans(Text(), Pair(Text(), c3), e.kind, (e.displayName, (e.hardwareId, back)));
    PairMeans(Uid(), Pair(Text(), Pair(Text(), c3)), e.entityUid,
              (e.kind, (e.displayName, (e.hardwareId, back))));
  }

  // The entity directory

  function Entities(): Codec<seq<EntityDescriptor>>
  {
    Vector(EntityCodec(), MAX_U16)
  }

  function ToDirectory(p: (Bytes, (Bytes, seq<EntityDescriptor>))): EntityDirectory
  {
    EntityDirectory.EntityDirectory(p.0, p.1.0, p.1.1)
  }

  function FromDirectory(d: EntityDirectory): (Bytes, (Bytes, seq<EntityDescriptor>))
  {
    (d.endpointUid, (d.revision, d.entities))
  }

  function DirectoryCodec(): Codec<EntityDirectory>
  {
    Mapped(Pair(Uid(), Pair(Text(), Entities())), ToDirectory, FromDirectory)
  }

  lemma DirectoryRoundTrips()
    ensures RoundTrips(DirectoryCodec())
  {
    hide RoundTrips, Canonical, Pair, Mapped, Text, Uid, EntityCodec, Vector;
    TextRoundTrips();
    EntityRoundTrips();
    VectorRoundTrips(EntityCodec(), MAX_U16);
    PairRoundTrips(Text(), Entities());
    PairRoundTrips(Uid(), Pair(Text(), Entities()));
    MappedLaws(Pair(Uid(), Pair(Text(), Entities())), ToDirectory, FromDirectory);
  }

  predicate DirectoryWithin(d: EntityDirectory)
  {
    && |d.endpointUid| <= 0xFFFF && |d.revision| <= 0xFFFF && |d.entities| <= 0xFFFF
    && forall i :: 0 <= i < |d.entities| ==> EntityWithin(d.entities[i])
  }

  predicate DirectoryReadable(d: EntityDirectory)
  {
    ValidUid(d.endpointUid)
    && forall i :: 0 <= i < |d.entities| ==> EntityReadable(d.entities[i])
  }

  lemma EntitiesLimits(es: seq<EntityDescriptor>)
    ensures Entities().fits(es)
       <==> |es| <= 0xFFFF && forall i :: 0 <= i < |es| ==> EntityWithin(es[i])
    ensures Entities().good(es) <==> forall i :: 0 <= i < |es| ==> EntityReadable(es[i])
  {
    hide EntityCodec, EntityWithin, EntityReadable;
    forall i | 0 <= i < |es|
      ensures EntityCodec().fits(es[i]) <==> EntityWithin(es[i])
      ensures EntityCodec().good(es[i]) <==> EntityReadable(es[i])
    {
      EntityLimits(es[i]);
    }
  }

  lemma DirectoryLimits(d: EntityDirectory)
    ensures DirectoryCodec().fits(d) <==> DirectoryWithin(d)
    ensures DirectoryCodec().good(d) <==> DirectoryReadable(d)
  {
    hide Pair, Mapped, Entities, EntityWithin, EntityReadable, ValidUid;
    EntitiesLimits(d.entities);
    MappedMeans(Pair(Uid(), Pair(Text(), Entities())), ToDirectory, FromDirectory, d);
    PairMeans(Text(), Entities(), d.revision, d.entities);
    PairMeans(Uid(), Pair(Text(), Entities()), d.endpointUid, (d.revision, d.entities));
  }

  lemma NoEmptyDirectory()
    ensures Parse(DirectoryCodec(), []).None?
  {
    hide Entities;
    assert TakeText([]).None?;
  }

  /**
   A directory survives, attributes in order, if and only if every text, list and map at every
   depth fits its 16-bit count, every uid is valid and every availability is a named one.
   */
  lemma DirectoryRoundTrip(d: EntityDirectory)
    ensures Parse(DirectoryCodec(), Build(DirectoryCodec(), d)) == Some(d)
       <==> DirectoryWithin(d) && DirectoryReadable(d)
    ensures !DirectoryWithin(d) ==> Build(DirectoryCodec(), d) == []
  {
    hide DirectoryCodec, RoundTrips, DirectoryWithin, DirectoryReadable, Parse;
    DirectoryRoundTrips();
    DirectoryLimits(d);
    NoEmptyDirectory();
    if DirectoryWithin(d) {
      BuildParse(DirectoryCodec(), d);
    }
  }

  // Log summaries

  function SignedOf(v: u32): i32
  {
    if v < 0x8000_0000 then v else v - 0x1_0000_0000
  }

  function UnsignedOf(v: i32): u32
  {
    if v >= 0 then v else v + 0x1_0000_0000
  }

  function Int32(): Codec<i32>
  {
    Mapped(U32Codec(), SignedOf, UnsignedOf)
  }

  lemma NumberRoundTrips()
    ensures RoundTrips(Int32()) && RoundTrips(U64Codec()) && RoundTrips(BoolCodec())
  {
    hide RoundTrips, Canonical, Mapped;
    NumberLaws();
    BoolLaws();
    MappedLaws(U32Codec(), SignedOf, UnsignedOf);
  }

  type LogFront = (Bytes, (Bytes, (Bytes, Bytes)))

  type LogBack = ((u64, u64), ((bool, i32), (StringMap, Bytes)))

  function LogFrontCodec(): Codec<LogFront>
  {
    Pair(Uid(), Pair(Uid(), Pair(Text(), Text())))
  }

  function LogBackCodec(): Codec<LogBack>
  {
    Pair(Pair(U64Codec(), U64Codec()), Pair(Pair(BoolCodec(), Int32()), Pair(MapCodec(), Text())))
  }

  function ToLog(p: (LogFront, LogBack)): LogSummary
  {
    var (f, b) := p;
    LogSummary(f.0, f.1.0, f.1.1.0, f.1.1.1, b.0.0, b.0.1, b.1.0.0, b.1.0.1, b.1.1.0, b.1.1.1)
  }

  function FromLog(l: LogSummary): (LogFront, LogBack)
  {
    ((l.logUid, (l.ownerUid, (l.title, l.state))),
     ((l.startedAtNs, l.finishedAtNs), ((l.hasExitCode, l.exitCode), (l.labels, l.message))))
  }

  function LogCodec(): Codec<LogSummary>
  {
    Mapped(Pair(LogFrontCodec(), LogBackCodec()), ToLog, FromLog)
  }

  lemma LogFrontRoundTrips()
    ensures RoundTrips(LogFrontCodec())
  {
    hide RoundTrips, Canonical, Pair, Text, Uid;
    TextRoundTrips();
    PairRoundTrips(Text(), Text());
    PairRoundTrips(Uid(), Pair(Text(), Text()));
    PairRoundTrips(Uid(), Pair(Uid(), Pair(Text(), Text())));
  }

  lemma LogBackRoundTrips()
    ensures RoundTrips(LogBackCodec())
  {
    hide RoundTrips, Canonical, Pair, Text, MapCodec, Int32, U64Codec, BoolCodec;
    TextRoundTrips();
    MapRoundTrips();
    NumberRoundTrips();
    PairRoundTrips(U64Codec(), U64Codec());
    PairRoundTrips(BoolCodec(), Int32());
    PairRoundTrips(MapCodec(), Text());
    var c := Pair(Pair(BoolCodec(), Int32()), Pair(MapCodec(), Text()));
    PairRoundTrips(Pair(BoolCodec(), Int32()), Pair(MapCodec(), Text()));
    PairRoundTrips(Pair(U64Codec(), U64Codec()), c);
  }

  lemma LogRoundTrips()
    ensures RoundTrips(LogCodec())
  {
    hide RoundTrips, Canonical, Pair, Mapped, LogFrontCodec, LogBackCodec;
    LogFrontRoundTrips();
    LogBackRoundTrips();
    PairRoundTrips(LogFrontCodec(), LogBackCodec());
    MappedLaws(Pair(LogFrontCodec(), LogBackCodec()), ToLog, FromLog);
  }

  predicate LogWithin(l: LogSummary)
  {
    && |l.logUid| <= 0xFFFF && |l.ownerUid| <= 0xFFFF && |l.title| <= 0xFFFF
    && |l.state| <= 0xFFFF && MapWithin(l.labels) && |l.message| <= 0xFFFF
  }

  predicate LogReadable(l: LogSummary)
  {
    ValidUid(l.logUid) && ValidUid(l.ownerUid)
  }

  lemma LogLimits(l: LogSummary)
    ensures LogCodec().fits(l) <==> LogWithin(l)
    ensures LogCodec().good(l) <==> LogReadable(l)
  {
    hide Pair, Mapped, ValidUid;
    var (front, back) := FromLog(l);
    MappedMeans(Pair(LogFrontCodec(), LogBackCodec()), ToLog, FromLog, l);
    PairMeans(LogFrontCodec(), LogBackCodec(), front, back);
    PairMeans(Text(), Text(), l.title, l.state);
    PairMeans(Uid(), Pair(Text(), Text()), l.ownerUid, front.1.1);
    PairMeans(Uid(), Pair(Uid(), Pair(Text(), Text())), l.logUid, front.1);
    LogBackLimits(l);
  }

  lemma LogBackLimits(l: LogSummary)
    ensures LogBackCodec().fits(FromLog(l).1) <==> MapWithin(l.labels) && |l.message| <= 0xFFFF
    ensures LogBackCodec().good(FromLog(l).1)
  {
    hide Pair, Mapped;
    var back := FromLog(l).1;
    MappedMeans(U32Codec(), SignedOf, UnsignedOf, l.exitCode);
    PairMeans(U64Codec(), U64Codec(), l.startedAtNs, l.finishedAtNs);
    PairMeans(BoolCodec(), Int32(), l.hasExitCode, l.exitCode);
    PairMeans(MapCodec(), Text(), l.labels, l.message);
    PairMeans(Pair(BoolCodec(), Int32()), Pair(MapCodec(), Text()), back.1.0, back.1.1);
    PairMeans(Pair(U64Codec(), U64Codec()),
              Pair(Pair(BoolCodec(), Int32()), Pair(MapCodec(), Text())), back.0, back.1);
  }

  function Logs(): Codec<seq<LogSummary>>
  {
    Vector(LogCodec(), MAX_U16)
  }

  function ToLogList(p: (bool, (Bytes, seq<LogSummary>))): LogListResponse
  {
    LogListResponse(p.0, p.1.0, p.1.1)
  }

  function FromLogList(r: LogListResponse): (bool, (Bytes, seq<LogSummary>))
  {
    (r.success, (r.message, r.logs))
  }

  function LogListCodec(): Codec<LogListResponse>
  {
    Mapped(Pair(BoolCodec(), Pair(Text(), Logs())), ToLogList, FromLogList)
  }

  lemma LogListRoundTrips()
    ensures RoundTrips(LogListCodec())
  {
    hide RoundTrips, Canonical, Pair, Mapped, Text, BoolCodec, LogCodec, Vector;
    TextRoundTrips();
    NumberRoundTrips();
    LogRoundTrips();
    VectorRoundTrips(LogCodec(), MAX_U16);
    PairRoundTrips(Text(), Logs());
    PairRoundTrips(BoolCodec(), Pair(Text(), Logs()));
    MappedLaws(Pair(BoolCodec(), Pair(Text(), Logs())), ToLogList, FromLogList);
  }

  predicate LogListWithin(r: LogListResponse)
  {
    |r.message| <= 0xFFFF && |r.logs| <= 0xFFFF
    && forall i :: 0 <= i < |r.logs| ==> LogWithin(r.logs[i])
  }

  predicate LogListReadable(r: LogListResponse)
  {
    forall i :: 0 <= i < |r.logs| ==> LogReadable(r.logs[i])
  }

  lemma LogsLimits(ls: seq<LogSummary>)
    ensures Logs().fits(ls)
       <==> |ls| <= 0xFFFF && forall i :: 0 <= i < |ls| ==> LogWithin(ls[i])
    ensures Logs().good(ls) <==> forall i :: 0 <= i < |ls| ==> LogReadable(ls[i])
  {
    hide LogCodec, LogWithin, LogReadable;
    forall i | 0 <= i < |ls|
      ensures LogCodec().fits(ls[i]) <==> LogWithin(ls[i])
      ensures LogCodec().good(ls[i]) <==> LogReadable(ls[i])
    {
      LogLimits(ls[i]);
    }
  }

  lemma LogListLimits(r: LogListResponse)
    ensures LogListCodec().fits(r) <==> LogListWithin(r)
    ensures LogListCodec().good(r) <==> LogListReadable(r)
  {
    hide Pair, Mapped, Logs, LogWithin, LogReadable;
    LogsLimits(r.logs);
    MappedMeans(Pair(BoolCodec(), Pair(Text(), Logs())), ToLogList, FromLogList, r);
    PairMeans(Text(), Logs(), r.message, r.logs);
    PairMeans(BoolCodec(), Pair(Text(), Logs()), r.success, (r.message, r.logs));
  }

  lemma NoEmptyLogList()
    ensures Parse(LogListCodec(), []).None?
  {
    hide Logs;
  }

  /** A log list survives if and only if it is within the limits and its uids are valid. */
  lemma LogListRoundTrip(r: LogListResponse)
    ensures Parse(LogListCodec(), Build(LogListCodec(), r)) == Some(r)
       <==> LogListWithin(r) && LogListReadable(r)
    ensures !LogListWithin(r) ==> Build(LogListCodec(), r) == []
  {
    hide LogListCodec, RoundTrips, LogListWithin, LogListReadable, Parse;
    LogListRoundTrips();
    LogListLimits(r);
    NoEmptyLogList();
    if LogListWithin(r) {
      BuildParse(LogListCodec(), r);
    }
  }
}
