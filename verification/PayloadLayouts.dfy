/**
 Session and configuration payloads as bytes, in the order in which the fields are written, and
 the limits that only the reader has.
 */
module PayloadLayouts {
  import opened ByteLayout
  import opened Readers
  import opened Wire
  import opened WireLayout
  import opened SessionCodec
  import opened Codecs
  import opened Configuration
  import opened ConfigurationMessages

  // Numbers and texts, least significant byte first

  function Two(n: nat): Bytes
  {
    [n % 256, n / 256 % 256]
  }

  function Four(n: nat): Bytes
  {
    Two(n) + Two(n / 0x1_0000)
  }

  function Eight(n: nat): Bytes
  {
    Four(n) + Four(n / 0x1_0000_0000)
  }

  function Flag(b: bool): Bytes
  {
    [if b then 1 else 0]
  }

  /** A text behind its length in two bytes. */
  function Str(v: Bytes): Bytes
  {
    Two(|v|) + v
  }

  /** A list behind its length in two bytes. */
  function List<T>(values: seq<T>, row: T -> Bytes): Bytes
  {
    Two(|values|) + PutAll(values, row)
  }

  lemma Digits(v: nat)
    ensures Le(v, 2) == Two(v) && Le(v, 4) == Four(v) && Le(v, 8) == Eight(v)
  {
    hide Le, Four, Two;
    TwoDigits(v);
    FourDigits(v);
    FourDigits(v / 0x1_0000_0000);
    FourMore(v, 4);
  }

  lemma TwoDigits(v: nat)
    ensures Le(v, 2) == Two(v)
  {
    hide Le;
    LeStep(v, 2);
    LeStep(v / 256, 1);
    NoDigits(v / 256 / 256);
  }

  lemma FourDigits(v: nat)
    ensures Le(v, 4) == Four(v)
  {
    hide Le, Four;
    FourMore(v, 0);
    NoDigits(v / 0x1_0000_0000);
  }

  lemma NoDigits(v: nat)
    ensures Le(v, 0) == []
  {
  }

  lemma LeStep(v: nat, n: nat)
    requires n > 0
    ensures Le(v, n) == [v % 256] + Le(v / 256, n - 1)
  {
  }

  lemma FourMore(v: nat, n: nat)
    ensures Le(v, n + 4) == Four(v) + Le(v / 0x1_0000_0000, n)
  {
    hide Le;
    LeStep(v, n + 4);
    LeStep(v / 256, n + 3);
    LeStep(v / 0x1_0000, n + 2);
    LeStep(v / 0x100_0000, n + 1);
    assert v / 256 / 256 == v / 0x1_0000 && v / 0x1_0000 / 256 == v / 0x100_0000;
    assert v / 0x100_0000 / 256 == v / 0x1_0000_0000;
    assert v / 0x1_0000 / 256 % 256 == v / 0x100_0000 % 256;
  }

  lemma TextLayout(v: Bytes)
    ensures PutText(v) == Str(v)
  {
    Digits(|v|);
  }

  // Session payloads

  /** The payload of Hello and Authenticate. */
  lemma TextPayload(v: Bytes)
    ensures EncodeText(v) == if |v| > 65535 then [] else Str(v)
  {
    TextLayout(v);
  }

  function ProfileRow(p: ProfileDescriptor): Bytes
  {
    Str(p.profileId) + Two(p.major) + Two(p.minor) + Str(p.schemaDigest)
  }

  /** The payload of Profiles: a count, and each profile in the order of the list. */
  lemma ProfileListPayload(ps: seq<ProfileDescriptor>)
    ensures
      EncodeProfileList(ps)
        == if |ps| <= 65535
              && forall i :: 0 <= i < |ps| ==>
                   Named(ps[i].profileId) && |ps[i].schemaDigest| <= 65535
           then List(ps, ProfileRow)
           else []
  {
    hide PutText, Str, Le, Two, Named, ValidUid;
    Digits(|ps|);
    forall p: ProfileDescriptor
      ensures PutProfile(p) == ProfileRow(p)
    {
      ProfileRows(p);
    }
    SameRows(ps, PutProfile, ProfileRow);
    forall uid: Bytes
      ensures ValidUid(uid) <==> Named(uid)
      ensures Named(uid) ==> |uid| <= 128
    {
      ValidUidMeans(uid);
      NamedLength(uid);
    }
  }

  lemma ProfileRows(p: ProfileDescriptor)
    ensures PutProfile(p) == ProfileRow(p)
  {
    hide PutText, Str, Le, Two;
    TextLayout(p.profileId);
    TextLayout(p.schemaDigest);
    Digits(p.major);
    Digits(p.minor);
  }

  // Configuration values

  /** Two's complement in 64 bits. */
  function Complement(v: i64): nat
  {
    if v >= 0 then v else 0x1_0000_0000_0000_0000 + v
  }

  /** A value behind its tag. */
  function ValueRow(v: Value): Bytes
  {
    match v
    case BoolValue(flag) => [1] + Flag(flag)
    case Int64Value(number) => [2] + Eight(Complement(number))
    case DoubleValue(bits) => [3] + Eight(bits)
    case StringValue(text) => [4] + Str(text)
    case StringListValue(texts) => [5] + List(texts, Str)
    case DoubleListValue(doubles) => [6] + List(doubles, Bits)
    case Unset => [7]
  }

  function Bits(v: u64): Bytes
  {
    Eight(v)
  }

  lemma TextsLayout(vs: seq<Bytes>)
    ensures Texts().put(vs) == List(vs, Str)
  {
    hide PutText, Str, Le, Two;
    Digits(|vs|);
    forall v: Bytes
      ensures PutText(v) == Str(v)
    {
      TextLayout(v);
    }
    SameRows(vs, Text().put, Str);
  }

  lemma DoublesLayout(vs: seq<u64>)
    ensures Doubles().put(vs) == List(vs, Bits)
  {
    hide Eight, Le, Two;
    Digits(|vs|);
    forall v: u64
      ensures Le(v, 8) == Bits(v)
    {
      Digits(v);
    }
    SameRows(vs, DoubleItem().put, Bits);
  }

  lemma ValueLayout(v: Value)
    ensures PutValue(v) == ValueRow(v)
  {
    hide Texts, Doubles, List, Eight, Le, PutText, Str;
    match v
    case BoolValue(_) =>
    case Int64Value(number) => Digits(Unsigned(number));
    case DoubleValue(bits) => Digits(bits);
    case StringValue(text) => TextLayout(text);
    case StringListValue(texts) => TextsLayout(texts);
    case DoubleListValue(doubles) => DoublesLayout(doubles);
    case Unset =>
  }

  // Configuration records

  function FieldValueRow(v: FieldValue): Bytes
  {
    Str(v.path) + ValueRow(v.value)
  }

  function ChoiceRow(c: Choice): Bytes
  {
    ValueRow(c.value) + Str(c.caption)
  }

  function SnapshotRow(s: Snapshot): Bytes
  {
    Str(s.resourceId) + Str(s.revision) + Str(s.appliedRevision) + Str(s.variantId)
    + Str(s.activeVariantId) + List(s.values, FieldValueRow) + List(s.userOverriddenPaths, Str)
  }

  function LimitRow(l: Limit): Bytes
  {
    Flag(l.present) + Eight(l.bits)
  }

  function SchemaRow(s: FieldSchema): Bytes
  {
    Str(s.path) + Str(s.title) + Str(s.description) + [s.typ]
    + Flag(s.required) + Flag(s.readOnly) + Flag(s.sensitive)
    + LimitRow(s.minimum) + LimitRow(s.maximum)
    + Str(s.validationPattern) + List(s.choices, ChoiceRow) + Str(s.groupPath)
    + [s.updatePolicy] + Str(s.unit)
    + (if s.defaultValue.Some? then [1] + ValueRow(s.defaultValue.value) else [0])
    + Flag(s.advanced)
  }

  function ErrorRow(e: FieldError): Bytes
  {
    Str(e.path) + Str(e.code) + Str(e.message)
  }

  function EffectsRow(e: Effects): Bytes
  {
    [e.requirement] + List(e.affectedComponents, Str) + Flag(e.reconnectExpected)
  }

  function StatusRow(s: Status): Bytes
  {
    [s.code] + Str(s.message)
  }

  function DescriptorRow(d: Descriptor): Bytes
  {
    Str(d.id) + Str(d.title) + Str(d.description) + Flag(d.readable) + Flag(d.writable)
    + Flag(d.applySupported) + Flag(d.variantsSupported)
  }

  lemma PairPuts<A(!new), B(!new)>(a: Codec<A>, b: Codec<B>, x: A, y: B)
    ensures Pair(a, b).put((x, y)) == a.put(x) + b.put(y)
  {
  }

  lemma MappedPuts<A(!new), B(!new)>(a: Codec<A>, to: A -> B, from: B -> A, v: B)
    ensures Mapped(a, to, from).put(v) == a.put(from(v))
  {
  }

  lemma FieldValueLayout(v: FieldValue)
    ensures FieldValueCodec().put(v) == FieldValueRow(v)
    ensures Text().put(v.path) == Str(v.path)
  {
    hide Pair, Mapped, PutValue, ValueRow, PutText, Str;
    MappedPuts(Pair(Text(), ValueCodec()), ToFieldValue, FromFieldValue, v);
    PairPuts(Text(), ValueCodec(), v.path, v.value);
    TextLayout(v.path);
    ValueLayout(v.value);
  }

  lemma ChoiceLayout(c: Choice)
    ensures ChoiceCodec().put(c) == ChoiceRow(c)
  {
    hide Pair, Mapped, PutValue, ValueRow, PutText, Str;
    MappedPuts(Pair(ValueCodec(), Text()), ToChoice, FromChoice, c);
    PairPuts(ValueCodec(), Text(), c.value, c.caption);
    TextLayout(c.caption);
    ValueLayout(c.value);
  }

  /** The bytes of a list are its length and its rows, when its elements are laid out as rows. */
  lemma VectorLayout<A(!new)>(c: Codec<A>, max: u16, vs: seq<A>, row: A -> Bytes)
    requires forall v :: c.put(v) == row(v)
    ensures Vector(c, max).put(vs) == List(vs, row)
  {
    hide Le, Two;
    Digits(|vs|);
    SameRows(vs, c.put, row);
  }

  lemma FieldValuesLayout(vs: seq<FieldValue>)
    ensures FieldValues().put(vs) == List(vs, FieldValueRow)
  {
    hide FieldValueCodec, FieldValueRow, Vector, List;
    forall v: FieldValue
      ensures FieldValueCodec().put(v) == FieldValueRow(v)
    {
      FieldValueLayout(v);
    }
    VectorLayout(FieldValueCodec(), MAX_CONFIG_ITEMS, vs, FieldValueRow);
  }

  lemma ChoicesLayout(vs: seq<Choice>)
    ensures Choices().put(vs) == List(vs, ChoiceRow)
  {
    hide ChoiceCodec, ChoiceRow, Vector, List;
    forall v: Choice
      ensures ChoiceCodec().put(v) == ChoiceRow(v)
    {
      ChoiceLayout(v);
    }
    VectorLayout(ChoiceCodec(), MAX_CONFIG_ITEMS, vs, ChoiceRow);
  }

  lemma TextPuts(v: Bytes)
    ensures Text().put(v) == Str(v)
  {
    TextLayout(v);
  }

  lemma SnapshotLayout(s: Snapshot)
    ensures SnapshotCodec().put(s) == SnapshotRow(s)
  {
    hide Text, Str, FieldValues, Texts, List, Pair, Mapped;
    FieldValuesLayout(s.values);
    TextsLayout(s.userOverriddenPaths);
    TextPuts(s.resourceId);
    TextPuts(s.revision);
    TextPuts(s.appliedRevision);
    TextPuts(s.variantId);
    TextPuts(s.activeVariantId);
    MappedPuts(SnapshotFieldsCodec(), ToSnapshot, FromSnapshot, s);
    var (c5, v5) := (Pair(FieldValues(), Texts()), (s.values, s.userOverriddenPaths));
    var (c4, v4) := (Pair(Text(), c5), (s.activeVariantId, v5));
    var (c3, v3) := (Pair(Text(), c4), (s.variantId, v4));
    var (c2, v2) := (Pair(Text(), c3), (s.appliedRevision, v3));
    PairPuts(FieldValues(), Texts(), s.values, s.userOverriddenPaths);
    PairPuts(Text(), c5, s.activeVariantId, v5);
    PairPuts(Text(), c4, s.variantId, v4);
    PairPuts(Text(), c3, s.appliedRevision, v3);
    PairPuts(Text(), c2, s.revision, v2);
    PairPuts(Text(), Pair(Text(), c2), s.resourceId, (s.revision, v2));
  }

  lemma ThreeTextsLayout(a: Bytes, b: Bytes, c: Bytes)
    ensures ThreeTextsCodec().put((a, (b, c))) == Str(a) + Str(b) + Str(c)
  {
    hide Text, Str, Pair;
    TextPuts(a);
    TextPuts(b);
    TextPuts(c);
    PairPuts(Text(), Text(), b, c);
    PairPuts(Text(), Pair(Text(), Text()), a, (b, c));
  }

  lemma LimitLayout(l: Limit)
    ensures LimitCodec().put(l) == LimitRow(l)
  {
    hide Pair, Mapped, Le, Eight;
    Digits(l.bits);
    MappedPuts(Pair(BoolCodec(), DoubleField()), ToLimit, FromLimit, l);
    PairPuts(BoolCodec(), DoubleField(), l.present, l.bits);
  }

  lemma FlagPuts(flag: bool)
    ensures BoolCodec().put(flag) == Flag(flag)
  {
  }

  lemma TypePuts(typ: byte)
    ensures SchemaType().put(typ) == [typ]
  {
  }

  lemma ThreeFlagsLayout(a: bool, b: bool, c: bool)
    ensures ThreeFlags().put((a, (b, c))) == Flag(a) + Flag(b) + Flag(c)
  {
    hide Pair, Flag;
    FlagPuts(a);
    FlagPuts(b);
    FlagPuts(c);
    hide BoolCodec;
    PairPuts(BoolCodec(), BoolCodec(), b, c);
    PairPuts(BoolCodec(), Pair(BoolCodec(), BoolCodec()), a, (b, c));
  }

  lemma SchemaFrontLayout(s: FieldSchema)
    ensures SchemaFrontCodec().put(FromSchema(s).0)
         == Str(s.path) + Str(s.title) + Str(s.description) + [s.typ]
            + Flag(s.required) + Flag(s.readOnly) + Flag(s.sensitive)
            + LimitRow(s.minimum) + LimitRow(s.maximum)
  {
    TypePuts(s.typ);
    hide Pair, LimitCodec, LimitRow, ThreeTextsCodec, ThreeFlags, SchemaType, Str, Flag;
    ThreeTextsLayout(s.path, s.title, s.description);
    ThreeFlagsLayout(s.required, s.readOnly, s.sensitive);
    LimitLayout(s.minimum);
    LimitLayout(s.maximum);
    var (c3, v3) := (Pair(LimitCodec(), LimitCodec()), (s.minimum, s.maximum));
    var flags := (s.required, (s.readOnly, s.sensitive));
    var (c2, v2) := (Pair(ThreeFlags(), c3), (flags, v3));
    PairPuts(LimitCodec(), LimitCodec(), s.minimum, s.maximum);
    PairPuts(ThreeFlags(), c3, flags, v3);
    PairPuts(SchemaType(), c2, s.typ, v2);
    PairPuts(ThreeTextsCodec(), Pair(SchemaType(), c2), (s.path, (s.title, s.description)),
             (s.typ, v2));
  }

  lemma SchemaMiddleLayout(s: FieldSchema)
    ensures SchemaMiddleCodec().put(FromSchema(s).1.0)
         == Str(s.validationPattern) + List(s.choices, ChoiceRow) + Str(s.groupPath)
            + [s.updatePolicy] + Str(s.unit)
  {
    hide Pair, Choices, List, Text, Str;
    ChoicesLayout(s.choices);
    TextPuts(s.validationPattern);
    TextPuts(s.groupPath);
    TextPuts(s.unit);
    var (c3, v3) := (Pair(UpdatePolicy(), Text()), (s.updatePolicy, s.unit));
    var (c2, v2) := (Pair(Text(), c3), (s.groupPath, v3));
    PairPuts(UpdatePolicy(), Text(), s.updatePolicy, s.unit);
    PairPuts(Text(), c3, s.groupPath, v3);
    PairPuts(Choices(), c2, s.choices, v2);
    PairPuts(Text(), Pair(Choices(), c2), s.validationPattern, (s.choices, v2));
  }

  lemma SchemaBackLayout(s: FieldSchema)
    ensures SchemaBackCodec().put(FromSchema(s).1.1)
         == (if s.defaultValue.Some? then [1] + ValueRow(s.defaultValue.value) else [0])
            + Flag(s.advanced)
  {
    hide Pair, PutValue, ValueRow;
    PairPuts(Optional(ValueCodec()), BoolCodec(), s.defaultValue, s.advanced);
    if s.defaultValue.Some? {
      ValueLayout(s.defaultValue.value);
    }
  }

  lemma SchemaLayout(s: FieldSchema)
    ensures SchemaCodec().put(s) == SchemaRow(s)
  {
    hide Pair, Mapped, SchemaFrontCodec, SchemaMiddleCodec, SchemaBackCodec, Str, List, ValueRow,
      LimitRow, Flag;
    var (front, (middle, back)) := FromSchema(s);
    MappedPuts(Pair(SchemaFrontCodec(), Pair(SchemaMiddleCodec(), SchemaBackCodec())), ToSchema,
               FromSchema, s);
    PairPuts(SchemaFrontCodec(), Pair(SchemaMiddleCodec(), SchemaBackCodec()), front,
             (middle, back));
    PairPuts(SchemaMiddleCodec(), SchemaBackCodec(), middle, back);
    SchemaFrontLayout(s);
    SchemaMiddleLayout(s);
    SchemaBackLayout(s);
  }

  lemma StatusLayout(s: Status)
    ensures StatusCodec().put(s) == StatusRow(s)
  {
    hide Pair, Mapped, Text, Str;
    TextPuts(s.message);
    MappedPuts(Pair(EnumCodec(0, 8), Text()), ToStatus, FromStatus, s);
    PairPuts(EnumCodec(0, 8), Text(), s.code, s.message);
  }

  lemma ErrorsLayout(es: seq<FieldError>)
    ensures FieldErrors().put(es) == List(es, ErrorRow)
  {
    hide ThreeTextsCodec, Str, Vector, List, Mapped;
    forall e: FieldError
      ensures FieldErrorCodec().put(e) == ErrorRow(e)
    {
      MappedPuts(ThreeTextsCodec(), ToFieldError, FromFieldError, e);
      ThreeTextsLayout(e.path, e.code, e.message);
    }
    VectorLayout(FieldErrorCodec(), MAX_CONFIG_ITEMS, es, ErrorRow);
  }

  lemma EffectsLayout(e: Effects)
    ensures EffectsCodec().put(e) == EffectsRow(e)
  {
    hide Pair, Mapped, Texts, List;
    TextsLayout(e.affectedComponents);
    MappedPuts(Pair(EnumCodec(0, 4), Pair(Texts(), BoolCodec())), ToEffects, FromEffects, e);
    PairPuts(EnumCodec(0, 4), Pair(Texts(), BoolCodec()), e.requirement,
             (e.affectedComponents, e.reconnectExpected));
    PairPuts(Texts(), BoolCodec(), e.affectedComponents, e.reconnectExpected);
  }

  lemma DescriptorLayout(d: Descriptor)
    ensures DescriptorCodec().put(d) == DescriptorRow(d)
  {
    hide Pair, Mapped, ThreeTextsCodec, Str;
    ThreeTextsLayout(d.id, d.title, d.description);
    MappedPuts(DescriptorFieldsCodec(), ToDescriptor, FromDescriptor, d);
    var flags := (d.writable, (d.applySupported, d.variantsSupported));
    PairPuts(BoolCodec(), BoolCodec(), d.applySupported, d.variantsSupported);
    PairPuts(BoolCodec(), Pair(BoolCodec(), BoolCodec()), d.writable, flags.1);
    PairPuts(BoolCodec(), ThreeFlags(), d.readable, flags);
    PairPuts(ThreeTextsCodec(), Pair(BoolCodec(), ThreeFlags()),
             (d.id, (d.title, d.description)), (d.readable, flags));
  }

  // Whole messages

  /** A patch request in full. */
  lemma PatchRequestLayout(m: PatchRequest)
    ensures
      Build(PatchRequestCodec(), m)
        == if !PatchRequestWithin(m) then []
           else Str(m.resourceId) + Str(m.variantId) + Str(m.expectedRevision)
                + List(m.updates, FieldValueRow) + Flag(m.validateOnly)
  {
    hide Pair, Mapped, ThreeTextsCodec, FieldValues, Str, List, PatchRequestWithin;
    PatchRequestLimits(m);
    ThreeTextsLayout(m.resourceId, m.variantId, m.expectedRevision);
    FieldValuesLayout(m.updates);
    MappedPuts(Pair(ThreeTextsCodec(), Pair(FieldValues(), BoolCodec())), ToPatchRequest,
               FromPatchRequest, m);
    PairPuts(ThreeTextsCodec(), Pair(FieldValues(), BoolCodec()),
             (m.resourceId, (m.variantId, m.expectedRevision)), (m.updates, m.validateOnly));
    PairPuts(FieldValues(), BoolCodec(), m.updates, m.validateOnly);
  }

  /** A patch response in full. */
  lemma PatchResponseLayout(m: PatchResponse)
    ensures
      Build(PatchResponseCodec(), m)
        == if !PatchResponseWithin(m) then []
           else StatusRow(m.status) + SnapshotRow(m.snapshot)
                + (if m.candidate.Some? then [1] + SnapshotRow(m.candidate.value) else [0])
                + List(m.errors, ErrorRow) + EffectsRow(m.effects)
  {
    hide SnapshotCodec, FieldErrors, EffectsCodec, StatusCodec, PatchResponseWithin, Pair, Mapped,
      StatusRow, SnapshotRow, EffectsRow, List;
    PatchResponseLimits(m);
    StatusLayout(m.status);
    SnapshotLayout(m.snapshot);
    ErrorsLayout(m.errors);
    EffectsLayout(m.effects);
    if m.candidate.Some? {
      SnapshotLayout(m.candidate.value);
    }
    MappedPuts(PatchResponseFieldsCodec(), ToPatchResponse, FromPatchResponse, m);
    var (c3, v3) := (Pair(FieldErrors(), EffectsCodec()), (m.errors, m.effects));
    var (c2, v2) := (Pair(Optional(SnapshotCodec()), c3), (m.candidate, v3));
    PairPuts(FieldErrors(), EffectsCodec(), m.errors, m.effects);
    PairPuts(Optional(SnapshotCodec()), c3, m.candidate, v3);
    PairPuts(SnapshotCodec(), c2, m.snapshot, v2);
    PairPuts(StatusCodec(), Pair(SnapshotCodec(), c2), m.status, (m.snapshot, v2));
  }

  /** A describe response in full. */
  lemma DescribeResponseLayout(m: DescribeResponse)
    ensures
      Build(DescribeResponseCodec(), m)
        == if !DescribeResponseWithin(m) then []
           else StatusRow(m.status) + DescriptorRow(m.resource) + List(m.fields, SchemaRow)
  {
    hide Schemas, Pair, Mapped, StatusCodec, DescriptorCodec, DescribeResponseWithin, StatusRow,
      DescriptorRow, List;
    DescribeResponseLimits(m);
    StatusLayout(m.status);
    DescriptorLayout(m.resource);
    SchemasLayout(m.fields);
    MappedPuts(Pair(StatusCodec(), Pair(DescriptorCodec(), Schemas())), ToDescribeResponse,
               FromDescribeResponse, m);
    PairPuts(StatusCodec(), Pair(DescriptorCodec(), Schemas()), m.status, (m.resource, m.fields));
    PairPuts(DescriptorCodec(), Schemas(), m.resource, m.fields);
  }

  lemma SchemasLayout(fs: seq<FieldSchema>)
    ensures Schemas().put(fs) == List(fs, SchemaRow)
  {
    hide SchemaCodec, SchemaRow, Vector, List;
    forall s: FieldSchema
      ensures SchemaCodec().put(s) == SchemaRow(s)
    {
      SchemaLayout(s);
    }
    VectorLayout(SchemaCodec(), MAX_CONFIG_ITEMS, fs, SchemaRow);
  }

  /** A describe request in full: a locale is written only when there is one. */
  lemma DescribeRequestLayout(m: DescribeRequest)
    ensures
      EncodeDescribeRequest(m)
        == if |m.resourceId| > 1024 || |m.locale| > 1024 then []
           else if m.locale == [] then Str(m.resourceId)
           else Str(m.resourceId) + Str(m.locale)
  {
    hide PutText, Str;
    TextLayout(m.resourceId);
    TextLayout(m.locale);
  }

  // What only the reader decides

  /** The reader takes texts of any length the prefix can express, and lists of up to 256. */
  lemma ReaderLimits(v: Bytes, vs: seq<Bytes>, rest: Bytes)
    ensures |v| <= 65535 ==> Text().take(Str(v) + rest) == Some((v, rest))
    ensures |vs| <= 256 && (forall i :: 0 <= i < |vs| ==> |vs[i]| <= 65535) ==>
      Texts().take(List(vs, Str) + rest) == Some((vs, rest))
    ensures 256 < |vs| <= 65535 ==> Texts().take(List(vs, Str) + rest).None?
  {
    hide TakeText, PutText, Str, TakeLe, Le, Two, PutAll, TakeMany;
    TextLayout(v);
    if |v| <= 65535 {
      TakePutText(v, rest);
    }
    Digits(|vs|);
    var tail := PutAll(vs, Str) + rest;
    assert List(vs, Str) + rest == Le(|vs|, 2) + tail;
    if |vs| <= 65535 {
      PowersOf256();
      TakeLePut(|vs|, 2, tail);
    }
    if |vs| <= 256 && forall i :: 0 <= i < |vs| ==> |vs[i]| <= 65535 {
      TextsReadBack(vs, rest);
    }
  }

  lemma TextsReadBack(vs: seq<Bytes>, rest: Bytes)
    requires forall i :: 0 <= i < |vs| ==> |vs[i]| <= 65535
    ensures TakeMany(PutAll(vs, Str) + rest, |vs|, Text().take) == Some((vs, rest))
  {
    hide TakeText, PutText, Str;
    forall v, tail: Bytes | v in vs
      ensures Text().take(Str(v) + tail) == Some((v, tail))
    {
      TextLayout(v);
      TakePutText(v, tail);
    }
    TakePutAll(vs, Str, Text().take, rest);
  }

  /** The largest double is finite; the infinities and a NaN are not. */
  lemma KnownDoubles()
    ensures Finite(0) && Finite(0x7FEF_FFFF_FFFF_FFFF) && Finite(0xFFEF_FFFF_FFFF_FFFF)
    ensures !Finite(0x7FF0_0000_0000_0000) && !Finite(0xFFF0_0000_0000_0000)
    ensures !Finite(0x7FF8_0000_0000_0001)
  {
  }
}
