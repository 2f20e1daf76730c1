/** The entity directory and the log list as bytes, in the order in which the fields are written. */
module CoreLayouts {
  import opened ByteLayout
  import opened Readers
  import opened StringMaps
  import opened Codecs
  import opened CoreMessages
  import opened PayloadLayouts

  function EntryRow(e: Entry): Bytes
  {
    Str(e.key) + Str(e.value)
  }

  function EntityRow(e: EntityDescriptor): Bytes
  {
    Str(e.entityUid) + Str(e.kind) + Str(e.displayName) + Str(e.hardwareId)
    + List(e.attributes, EntryRow) + List(e.capabilities, Str) + [e.availability]
  }

  /** Two's complement in 32 bits. */
  function Complement32(v: i32): nat
  {
    if v >= 0 then v else 0x1_0000_0000 + v
  }

  function LogRow(l: LogSummary): Bytes
  {
    Str(l.logUid) + Str(l.ownerUid) + Str(l.title) + Str(l.state)
    + Eight(l.startedAtNs) + Eight(l.finishedAtNs) + Flag(l.hasExitCode)
    + Four(Complement32(l.exitCode)) + List(l.labels, EntryRow) + Str(l.message)
  }

  lemma TextPuts(v: Bytes)
    ensures Text().put(v) == Str(v) && Uid().put(v) == Str(v)
  {
    TextLayout(v);
  }

  lemma MapLayout(m: StringMap)
    ensures MapCodec().put(m) == List(m, EntryRow)
  {
    hide PutText, Str, Le, Two;
    Digits(|m|);
    forall e: Entry
      ensures PutEntry(e) == EntryRow(e)
    {
      TextLayout(e.key);
      TextLayout(e.value);
    }
    SameRows(m, PutEntry, EntryRow);
  }

  lemma CapabilitiesLayout(vs: seq<Bytes>)
    ensures Texts().put(vs) == List(vs, Str)
  {
    hide Text, Str, Vector, List;
    forall v: Bytes
      ensures Text().put(v) == Str(v)
    {
      TextPuts(v);
    }
    VectorLayout(Text(), MAX_U16, vs, Str);
  }

  lemma EntityBackLayout(attributes: StringMap, capabilities: seq<Bytes>, availability: byte)
    ensures EntityBack().put((attributes, (capabilities, availability)))
         == List(attributes, EntryRow) + List(capabilities, Str) + [availability]
  {
    hide Pair, Texts, MapCodec, List;
    MapLayout(attributes);
    CapabilitiesLayout(capabilities);
    PairPuts(Texts(), EnumCodec(0, 3), capabilities, availability);
    PairPuts(MapCodec(), Pair(Texts(), EnumCodec(0, 3)), attributes, (capabilities, availability));
  }

  lemma EntityLayout(e: EntityDescriptor)
    ensures EntityCodec().put(e) == EntityRow(e)
  {
    hide Pair, Mapped, Text, Uid, EntityBack, Str, List;
    TextPuts(e.entityUid);
    TextPuts(e.kind);
    TextPuts(e.displayName);
    TextPuts(e.hardwareId);
    EntityBackLayout(e.attributes, e.capabilities, e.availability);
    var back := (e.attributes, (e.capabilities, e.availability));
    MappedPuts(EntityFieldsCodec(), ToEntity, FromEntity, e);
    var c3 := Pair(Text(), EntityBack());
    PairPuts(Text(), EntityBack(), e.hardwareId, back);
    PairPuts(Text(), c3, e.displayName, (e.hardwareId, back));
    PairPuts(Text(), Pair(Text(), c3), e.kind, (e.displayName, (e.hardwareId, back)));
    PairPuts(Uid(), Pair(Text(), Pair(Text(), c3)), e.entityUid,
             (e.kind, (e.displayName, (e.hardwareId, back))));
  }

  /** A directory in full. */
  lemma DirectoryLayout(d: EntityDirectory)
    ensures
      Build(DirectoryCodec(), d)
        == if !DirectoryWithin(d) then []
           else Str(d.endpointUid) + Str(d.revision) + List(d.entities, EntityRow)
  {
    hide Pair, Mapped, Text, Uid, Entities, Str, List, DirectoryWithin;
    DirectoryLimits(d);
    TextPuts(d.endpointUid);
    TextPuts(d.revision);
    EntitiesLayout(d.entities);
    MappedPuts(Pair(Uid(), Pair(Text(), Entities())), ToDirectory, FromDirectory, d);
    PairPuts(Text(), Entities(), d.revision, d.entities);
    PairPuts(Uid(), Pair(Text(), Entities()), d.endpointUid, (d.revision, d.entities));
  }

  lemma EntitiesLayout(es: seq<EntityDescriptor>)
    ensures Entities().put(es) == List(es, EntityRow)
  {
    hide EntityCodec, EntityRow, Vector, List;
    forall e: EntityDescriptor
      ensures EntityCodec().put(e) == EntityRow(e)
    {
      EntityLayout(e);
    }
    VectorLayout(EntityCodec(), MAX_U16, es, EntityRow);
  }

  lemma LogFrontLayout(l: LogSummary)
    ensures LogFrontCodec().put(FromLog(l).0)
         == Str(l.logUid) + Str(l.ownerUid) + Str(l.title) + Str(l.state)
  {
    hide Pair, Text, Uid, Str;
    TextPuts(l.logUid);
    TextPuts(l.ownerUid);
    TextPuts(l.title);
    TextPuts(l.state);
    var front := FromLog(l).0;
    PairPuts(Text(), Text(), l.title, l.state);
    PairPuts(Uid(), Pair(Text(), Text()), l.ownerUid, front.1.1);
    PairPuts(Uid(), Pair(Uid(), Pair(Text(), Text())), l.logUid, front.1);
  }

  lemma LogBackLayout(l: LogSummary)
    ensures LogBackCodec().put(FromLog(l).1)
         == Eight(l.startedAtNs) + Eight(l.finishedAtNs) + Flag(l.hasExitCode)
            + Four(Complement32(l.exitCode)) + List(l.labels, EntryRow) + Str(l.message)
  {
    hide Pair, Text, MapCodec, Str, List, Le, Four, Eight, Mapped;
    Digits(l.startedAtNs);
    Digits(l.finishedAtNs);
    Digits(UnsignedOf(l.exitCode));
    MapLayout(l.labels);
    TextPuts(l.message);
    var back := FromLog(l).1;
    MappedPuts(U32Codec(), SignedOf, UnsignedOf, l.exitCode);
    PairPuts(U64Codec(), U64Codec(), l.startedAtNs, l.finishedAtNs);
    PairPuts(BoolCodec(), Int32(), l.hasExitCode, l.exitCode);
    PairPuts(MapCodec(), Text(), l.labels, l.message);
    PairPuts(Pair(BoolCodec(), Int32()), Pair(MapCodec(), Text()), back.1.0, back.1.1);
    PairPuts(Pair(U64Codec(), U64Codec()),
             Pair(Pair(BoolCodec(), Int32()), Pair(MapCodec(), Text())), back.0, back.1);
  }

  lemma LogLayout(l: LogSummary)
    ensures LogCodec().put(l) == LogRow(l)
  {
    hide Pair, Mapped, LogFrontCodec, LogBackCodec, Str, List, Four, Eight, Flag;
    LogFrontLayout(l);
    LogBackLayout(l);
    MappedPuts(Pair(LogFrontCodec(), LogBackCodec()), ToLog, FromLog, l);
    PairPuts(LogFrontCodec(), LogBackCodec(), FromLog(l).0, FromLog(l).1);
  }

  lemma LogsLayout(ls: seq<LogSummary>)
    ensures Logs().put(ls) == List(ls, LogRow)
  {
    hide LogCodec, LogRow, Vector, List;
    forall l: LogSummary
      ensures LogCodec().put(l) == LogRow(l)
    {
      LogLayout(l);
    }
    VectorLayout(LogCodec(), MAX_U16, ls, LogRow);
  }

  /** A log list in full. */
  lemma LogListLayout(r: LogListResponse)
    ensures
      Build(LogListCodec(), r)
        == if !LogListWithin(r) then []
           else Flag(r.success) + Str(r.message) + List(r.logs, LogRow)
  {
    hide Pair, Mapped, Text, Logs, Str, List, LogListWithin;
    LogListLimits(r);
    TextPuts(r.message);
    LogsLayout(r.logs);
    MappedPuts(Pair(BoolCodec(), Pair(Text(), Logs())), ToLogList, FromLogList, r);
    PairPuts(Text(), Logs(), r.message, r.logs);
    PairPuts(BoolCodec(), Pair(Text(), Logs()), r.success, (r.message, r.logs));
  }
}
