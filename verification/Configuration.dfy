/**
 Configuration payloads: tagged values, field schemas with an optional default, snapshots, and
 the messages that carry them. A double is its 64 bits.
 */
module Configuration {
  import opened ByteLayout
  import opened Readers
  import opened Codecs

  const MAX_STRING_BYTES: u16 := 1024
  const MAX_CONFIG_ITEMS: u16 := 256

  type i64 = x: int | -0x8000_0000_0000_0000 <= x < 0x8000_0000_0000_0000

  /** Binary64 bits of a finite number: not all exponent bits are set. */
  predicate Finite(bits: u64)
  {
    bits / 0x10_0000_0000_0000 % 0x800 != 0x7FF
  }

  datatype Value =
    | BoolValue(flag: bool)
    | Int64Value(number: i64)
    | DoubleValue(bits: u64)
    | StringValue(text: Bytes)
    | StringListValue(texts: seq<Bytes>)
    | DoubleListValue(doubles: seq<u64>)
    | Unset

  datatype FieldValue = FieldValue(path: Bytes, value: Value)

  datatype Choice = Choice(value: Value, caption: Bytes)

  datatype Limit = Limit(present: bool, bits: u64)

  /** Type and update policy are raw enumerators, which the writer does not check. */
  datatype FieldSchema = FieldSchema(
    path: Bytes,
    title: Bytes,
    description: Bytes,
    typ: byte,
    required: bool,
    readOnly: bool,
    sensitive: bool,
    minimum: Limit,
    maximum: Limit,
    validationPattern: Bytes,
    choices: seq<Choice>,
    groupPath: Bytes,
    updatePolicy: byte,
    unit: Bytes,
    defaultValue: Option<Value>,
    advanced: bool)

  datatype Snapshot = Snapshot(
    resourceId: Bytes,
    revision: Bytes,
    appliedRevision: Bytes,
    variantId: Bytes,
    activeVariantId: Bytes,
    values: seq<FieldValue>,
    userOverriddenPaths: seq<Bytes>)

  datatype Descriptor = Descriptor(
    id: Bytes,
    title: Bytes,
    description: Bytes,
    readable: bool,
    writable: bool,
    applySupported: bool,
    variantsSupported: bool)

  datatype FieldError = FieldError(path: Bytes, code: Bytes, message: Bytes)

  datatype Effects = Effects(
    requirement: byte,
    affectedComponents: seq<Bytes>,
    reconnectExpected: bool)

  datatype Status = Status(code: byte, message: Bytes)

  // Parts of values

  function Text(): Codec<Bytes>
  {
    TextCodec(MAX_STRING_BYTES)
  }

  function Texts(): Codec<seq<Bytes>>
  {
    Vector(Text(), MAX_CONFIG_ITEMS)
  }

  lemma TextsLaws()
    ensures Lawful(Text()) && Lawful(Texts())
  {
    hide Lawful;
    TextLaws(MAX_STRING_BYTES);
    VectorLaws(Text(), MAX_CONFIG_ITEMS);
  }

  /** A double of a value: the writer refuses what is not finite, and so does the reader. */
  function DoubleItem(): Codec<u64>
  {
    Limited(U64Codec(), Finite)
  }

  /** A double of a schema: written unchecked, refused by the reader when not finite. */
  function DoubleField(): Codec<u64>
  {
    Checked(U64Codec(), Finite)
  }

  function Doubles(): Codec<seq<u64>>
  {
    Vector(DoubleItem(), MAX_CONFIG_ITEMS)
  }

  lemma DoubleLaws()
    ensures Lawful(DoubleItem()) && Lawful(DoubleField()) && Lawful(Doubles())
  {
    hide RoundTrips, Canonical, Limited, Checked;
    NumberLaws();
    LimitedLaws(U64Codec(), Finite);
    CheckedLaws(U64Codec(), Finite);
    VectorLaws(DoubleItem(), MAX_CONFIG_ITEMS);
  }

  /** `static_cast` between the two 64-bit types, as two's complement. */
  function Signed(v: u64): i64
  {
    if v < 0x8000_0000_0000_0000 then v else v - 0x1_0000_0000_0000_0000
  }

  function Unsigned(v: i64): u64
  {
    if v >= 0 then v else v + 0x1_0000_0000_0000_0000
  }

  function Int64(): Codec<i64>
  {
    Mapped(U64Codec(), Signed, Unsigned)
  }

  lemma Int64Laws()
    ensures Lawful(Int64())
  {
    hide RoundTrips, Canonical, Mapped;
    NumberLaws();
    MappedLaws(U64Codec(), Signed, Unsigned);
  }

  // Tagged values

  function ValueFits(v: Value): bool
  {
    match v
    case DoubleValue(bits) => DoubleItem().fits(bits)
    case StringValue(text) => Text().fits(text)
    case StringListValue(texts) => Texts().fits(texts)
    case DoubleListValue(doubles) => Doubles().fits(doubles)
    case _ => true
  }

  function PutValue(v: Value): Bytes
  {
    match v
    case BoolValue(flag) => [1] + BoolCodec().put(flag)
    case Int64Value(number) => [2] + Int64().put(number)
    case DoubleValue(bits) => [3] + DoubleItem().put(bits)
    case StringValue(text) => [4] + Text().put(text)
    case StringListValue(texts) => [5] + Texts().put(texts)
    case DoubleListValue(doubles) => [6] + Doubles().put(doubles)
    case Unset => [7]
  }

  function TakeValue(b: Bytes): Option<(Value, Bytes)>
  {
    var (tag, rest) :- TakeU8(b);
    if tag == 1 then
      var (v, left) :- BoolCodec().take(rest);
      Some((BoolValue(v), left))
    else if tag == 2 then
      var (v, left) :- Int64().take(rest);
      Some((Int64Value(v), left))
    else if tag == 3 then
      var (v, left) :- DoubleItem().take(rest);
      Some((DoubleValue(v), left))
    else if tag == 4 then
      var (v, left) :- Text().take(rest);
      Some((StringValue(v), left))
    else if tag == 5 then
      var (v, left) :- Texts().take(rest);
      Some((StringListValue(v), left))
    else if tag == 6 then
      var (v, left) :- Doubles().take(rest);
      Some((DoubleListValue(v), left))
    else if tag == 7 then Some((Unset, rest))
    else None
  }

  /** `write_value` and `read_value`: every value that fits is also accepted. */
  function ValueCodec(): Codec<Value>
  {
    Codec(ValueFits, ValueGood, PutValue, TakeValue)
  }

  function ValueGood(v: Value): bool
  {
    match v
    case DoubleValue(bits) => DoubleItem().good(bits)
    case DoubleListValue(doubles) => Doubles().good(doubles)
    case _ => true
  }

  lemma PartLaws()
    ensures Lawful(BoolCodec()) && Lawful(Int64()) && Lawful(DoubleItem()) && Lawful(Text())
    ensures Lawful(Texts()) && Lawful(Doubles())
  {
    hide Lawful;
    BoolLaws();
    Int64Laws();
    DoubleLaws();
    TextsLaws();
  }

  lemma TextsAlwaysGood(texts: seq<Bytes>, text: Bytes)
    ensures Texts().good(texts) && Text().good(text)
  {
  }

  lemma ValueReadBack(v: Value, rest: Bytes)
    requires ValueFits(v)
    ensures TakeValue(PutValue(v) + rest) == if ValueGood(v) then Some((v, rest)) else None
  {
    hide BoolCodec, Int64, DoubleItem, Text, Texts, Doubles, Canonical;
    PartLaws();
    AlwaysGood();
    var body := PutValue(v)[1..];
    assert (PutValue(v) + rest)[1..] == body + rest;
    match v
    case BoolValue(flag) => assert body == BoolCodec().put(flag);
    case Int64Value(number) => assert body == Int64().put(number);
    case DoubleValue(bits) => assert body == DoubleItem().put(bits);
    case StringValue(text) =>
      TextsAlwaysGood([], text);
      assert body == Text().put(text);
    case StringListValue(texts) =>
      TextsAlwaysGood(texts, []);
      assert body == Texts().put(texts);
    case DoubleListValue(doubles) => assert body == Doubles().put(doubles);
    case Unset =>
  }

  lemma AlwaysGood()
    ensures forall flag :: BoolCodec().fits(flag) && BoolCodec().good(flag)
    ensures forall number :: Int64().fits(number) && Int64().good(number)
  {
  }

  lemma ValuePrintedBack(b: Bytes)
    requires TakeValue(b).Some?
    ensures ValueGood(TakeValue(b).value.0)
    ensures ValueFits(TakeValue(b).value.0) ==>
      PutValue(TakeValue(b).value.0) + TakeValue(b).value.1 == b
  {
    hide BoolCodec, Int64, DoubleItem, Text, Texts, Doubles, RoundTrips;
    PartLaws();
    AlwaysGood();
    assert b == [b[0]] + b[1..];
  }

  lemma ValueLaws()
    ensures Lawful(ValueCodec())
  {
    hide ValueFits, ValueGood, PutValue, TakeValue;
    forall v: Value, rest: Bytes | ValueFits(v)
      ensures TakeValue(PutValue(v) + rest) == if ValueGood(v) then Some((v, rest)) else None
    {
      ValueReadBack(v, rest);
    }
    forall b: Bytes | TakeValue(b).Some?
      ensures ValueGood(TakeValue(b).value.0)
      ensures ValueFits(TakeValue(b).value.0) ==>
        PutValue(TakeValue(b).value.0) + TakeValue(b).value.1 == b
    {
      ValuePrintedBack(b);
    }
  }

  // Records

  function ToFieldValue(p: (Bytes, Value)): FieldValue
  {
    FieldValue(p.0, p.1)
  }

  function FromFieldValue(v: FieldValue): (Bytes, Value)
  {
    (v.path, v.value)
  }

  function FieldValueCodec(): Codec<FieldValue>
  {
    Mapped(Pair(Text(), ValueCodec()), ToFieldValue, FromFieldValue)
  }

  function ToChoice(p: (Value, Bytes)): Choice
  {
    Choice(p.0, p.1)
  }

  function FromChoice(v: Choice): (Value, Bytes)
  {
    (v.value, v.caption)
  }

  function ChoiceCodec(): Codec<Choice>
  {
    Mapped(Pair(ValueCodec(), Text()), ToChoice, FromChoice)
  }

  lemma FieldValueLaws()
    ensures Lawful(FieldValueCodec()) && Lawful(ChoiceCodec())
  {
    hide RoundTrips, Canonical, Pair, Mapped, Text, ValueCodec;
    TextsLaws();
    ValueLaws();
    PairLaws(Text(), ValueCodec());
    PairLaws(ValueCodec(), Text());
    MappedLaws(Pair(Text(), ValueCodec()), ToFieldValue, FromFieldValue);
    MappedLaws(Pair(ValueCodec(), Text()), ToChoice, FromChoice);
  }

  type ThreeTexts = (Bytes, (Bytes, Bytes))

  function ThreeTextsCodec(): Codec<ThreeTexts>
  {
    Pair(Text(), Pair(Text(), Text()))
  }

  function ThreeFlags(): Codec<(bool, (bool, bool))>
  {
    Pair(BoolCodec(), Pair(BoolCodec(), BoolCodec()))
  }

  lemma TripleLaws()
    ensures Lawful(ThreeTextsCodec()) && Lawful(ThreeFlags())
  {
    hide Lawful, Pair, Text, BoolCodec;
    TextsLaws();
    BoolLaws();
    PairLaws(Text(), Text());
    PairLaws(Text(), Pair(Text(), Text()));
    PairLaws(BoolCodec(), BoolCodec());
    PairLaws(BoolCodec(), Pair(BoolCodec(), BoolCodec()));
  }

  function ToLimit(p: (bool, u64)): Limit
  {
    Limit(p.0, p.1)
  }

  function FromLimit(v: Limit): (bool, u64)
  {
    (v.present, v.bits)
  }

  /** A bound of a schema: its bits travel whether or not it is present. */
  function LimitCodec(): Codec<Limit>
  {
    Mapped(Pair(BoolCodec(), DoubleField()), ToLimit, FromLimit)
  }

  lemma LimitLaws()
    ensures Lawful(LimitCodec())
  {
    hide RoundTrips, Canonical, Pair, Mapped, BoolCodec, DoubleField;
    BoolLaws();
    DoubleLaws();
    PairLaws(BoolCodec(), DoubleField());
    MappedLaws(Pair(BoolCodec(), DoubleField()), ToLimit, FromLimit);
  }

  // Field schemas, in three stretches of the wire order

  type SchemaFront = (ThreeTexts, (byte, ((bool, (bool, bool)), (Limit, Limit))))

  type SchemaMiddle = (Bytes, (seq<Choice>, (Bytes, (byte, Bytes))))

  type SchemaBack = (Option<Value>, bool)

  function SchemaType(): Codec<byte>
  {
    EnumCodec(1, 6)
  }

  function UpdatePolicy(): Codec<byte>
  {
    EnumCodec(0, 5)
  }

  function Choices(): Codec<seq<Choice>>
  {
    Vector(ChoiceCodec(), MAX_CONFIG_ITEMS)
  }

  function SchemaFrontCodec(): Codec<SchemaFront>
  {
    Pair(ThreeTextsCodec(), Pair(SchemaType(), Pair(ThreeFlags(), Pair(LimitCodec(), LimitCodec()))))
  }

  function SchemaMiddleCodec(): Codec<SchemaMiddle>
  {
    Pair(Text(), Pair(Choices(), Pair(Text(), Pair(UpdatePolicy(), Text()))))
  }

  function SchemaBackCodec(): Codec<SchemaBack>
  {
    Pair(Optional(ValueCodec()), BoolCodec())
  }

  function ToSchema(p: (SchemaFront, (SchemaMiddle, SchemaBack))): FieldSchema
  {
    var (f, (m, b)) := p;
    FieldSchema(f.0.0, f.0.1.0, f.0.1.1, f.1.0, f.1.1.0.0, f.1.1.0.1.0, f.1.1.0.1.1,
                f.1.1.1.0, f.1.1.1.1, m.0, m.1.0, m.1.1.0, m.1.1.1.0, m.1.1.1.1, b.0, b.1)
  }

  function FromSchema(s: FieldSchema): (SchemaFront, (SchemaMiddle, SchemaBack))
  {
    (((s.path, (s.title, s.description)),
      (s.typ, ((s.required, (s.readOnly, s.sensitive)), (s.minimum, s.maximum)))),
     ((s.validationPattern, (s.choices, (s.groupPath, (s.updatePolicy, s.unit)))),
      (s.defaultValue, s.advanced)))
  }

  function SchemaCodec(): Codec<FieldSchema>
  {
    Mapped(Pair(SchemaFrontCodec(), Pair(SchemaMiddleCodec(), SchemaBackCodec())), ToSchema,
           FromSchema)
  }

  lemma SchemaFrontLaws()
    ensures Lawful(SchemaFrontCodec())
  {
    hide Lawful, Pair, ThreeTextsCodec, SchemaType, ThreeFlags, LimitCodec;
    TripleLaws();
    SchemaEnumLaws();
    LimitLaws();
    PairLaws(LimitCodec(), LimitCodec());
    PairLaws(ThreeFlags(), Pair(LimitCodec(), LimitCodec()));
    PairLaws(SchemaType(), Pair(ThreeFlags(), Pair(LimitCodec(), LimitCodec())));
    PairLaws(ThreeTextsCodec(),
             Pair(SchemaType(), Pair(ThreeFlags(), Pair(LimitCodec(), LimitCodec()))));
  }

  lemma SchemaEnumLaws()
    ensures Lawful(SchemaType()) && Lawful(UpdatePolicy())
  {
    hide Lawful;
    EnumLaws(1, 6);
    EnumLaws(0, 5);
  }

  lemma SchemaMiddleLaws()
    ensures Lawful(SchemaMiddleCodec())
  {
    hide Lawful, Pair, Text, ChoiceCodec, UpdatePolicy;
    TextsLaws();
    FieldValueLaws();
    SchemaEnumLaws();
    VectorLaws(ChoiceCodec(), MAX_CONFIG_ITEMS);
    hide Vector;
    PairLaws(UpdatePolicy(), Text());
    PairLaws(Text(), Pair(UpdatePolicy(), Text()));
    PairLaws(Choices(), Pair(Text(), Pair(UpdatePolicy(), Text())));
    PairLaws(Text(), Pair(Choices(), Pair(Text(), Pair(UpdatePolicy(), Text()))));
  }

  lemma SchemaBackLaws()
    ensures Lawful(SchemaBackCodec())
  {
    hide Lawful, Pair, Optional, ValueCodec, BoolCodec;
    ValueLaws();
    BoolLaws();
    OptionalLaws(ValueCodec());
    PairLaws(Optional(ValueCodec()), BoolCodec());
  }

  lemma SchemaLaws()
    ensures Lawful(SchemaCodec())
  {
    hide RoundTrips, Canonical, Pair, Mapped, SchemaFrontCodec, SchemaMiddleCodec,
      SchemaBackCodec;
    SchemaFrontLaws();
    SchemaMiddleLaws();
    SchemaBackLaws();
    PairLaws(SchemaMiddleCodec(), SchemaBackCodec());
    PairLaws(SchemaFrontCodec(), Pair(SchemaMiddleCodec(), SchemaBackCodec()));
    MappedLaws(Pair(SchemaFrontCodec(), Pair(SchemaMiddleCodec(), SchemaBackCodec())), ToSchema,
               FromSchema);
  }

  // Snapshots

  type SnapshotFields =
    (Bytes, (Bytes, (Bytes, (Bytes, (Bytes, (seq<FieldValue>, seq<Bytes>))))))

  function FieldValues(): Codec<seq<FieldValue>>
  {
    Vector(FieldValueCodec(), MAX_CONFIG_ITEMS)
  }

  function SnapshotFieldsCodec(): Codec<SnapshotFields>
  {
    Pair(Text(), Pair(Text(), Pair(Text(), Pair(Text(), Pair(Text(),
         Pair(FieldValues(), Texts()))))))
  }

  function ToSnapshot(p: SnapshotFields): Snapshot
  {
    Snapshot(p.0, p.1.0, p.1.1.0, p.1.1.1.0, p.1.1.1.1.0, p.1.1.1.1.1.0, p.1.1.1.1.1.1)
  }

  function FromSnapshot(s: Snapshot): SnapshotFields
  {
    (s.resourceId, (s.revision, (s.appliedRevision, (s.variantId, (s.activeVariantId,
     (s.values, s.userOverriddenPaths))))))
  }

  function SnapshotCodec(): Codec<Snapshot>
  {
    Mapped(SnapshotFieldsCodec(), ToSnapshot, FromSnapshot)
  }

  lemma SnapshotFieldsLaws()
    ensures Lawful(SnapshotFieldsCodec()) && Lawful(FieldValues())
  {
    hide Lawful, Pair, Text, Texts, FieldValueCodec;
    TextsLaws();
    FieldValueLaws();
    VectorLaws(FieldValueCodec(), MAX_CONFIG_ITEMS);
    hide Vector;
    var c1 := Pair(FieldValues(), Texts());
    PairLaws(FieldValues(), Texts());
    PairLaws(Text(), c1);
    PairLaws(Text(), Pair(Text(), c1));
    PairLaws(Text(), Pair(Text(), Pair(Text(), c1)));
    PairLaws(Text(), Pair(Text(), Pair(Text(), Pair(Text(), c1))));
    PairLaws(Text(), Pair(Text(), Pair(Text(), Pair(Text(), Pair(Text(), c1)))));
  }

  lemma SnapshotLaws()
    ensures Lawful(SnapshotCodec())
  {
    hide RoundTrips, Canonical, Mapped, SnapshotFieldsCodec;
    SnapshotFieldsLaws();
    MappedLaws(SnapshotFieldsCodec(), ToSnapshot, FromSnapshot);
  }

  // Status, errors, effects and descriptors

  function ToStatus(p: (byte, Bytes)): Status
  {
    Status(p.0, p.1)
  }

  function FromStatus(s: Status): (byte, Bytes)
  {
    (s.code, s.message)
  }

  function StatusCodec(): Codec<Status>
  {
    Mapped(Pair(EnumCodec(0, 8), Text()), ToStatus, FromStatus)
  }

  function ToFieldError(p: ThreeTexts): FieldError
  {
    FieldError(p.0, p.1.0, p.1.1)
  }

  function FromFieldError(e: FieldError): ThreeTexts
  {
    (e.path, (e.code, e.message))
  }

  function FieldErrorCodec(): Codec<FieldError>
  {
    Mapped(ThreeTextsCodec(), ToFieldError, FromFieldError)
  }

  function ToEffects(p: (byte, (seq<Bytes>, bool))): Effects
  {
    Effects(p.0, p.1.0, p.1.1)
  }

  function FromEffects(e: Effects): (byte, (seq<Bytes>, bool))
  {
    (e.requirement, (e.affectedComponents, e.reconnectExpected))
  }

  function EffectsCodec(): Codec<Effects>
  {
    Mapped(Pair(EnumCodec(0, 4), Pair(Texts(), BoolCodec())), ToEffects, FromEffects)
  }

  lemma StatusLaws()
    ensures Lawful(StatusCodec()) && Lawful(FieldErrorCodec())
  {
    hide RoundTrips, Canonical, Pair, Mapped, EnumCodec, Text, ThreeTextsCodec;
    EnumLaws(0, 8);
    TextsLaws();
    PairLaws(EnumCodec(0, 8), Text());
    MappedLaws(Pair(EnumCodec(0, 8), Text()), ToStatus, FromStatus);
    TripleLaws();
    MappedLaws(ThreeTextsCodec(), ToFieldError, FromFieldError);
  }

  lemma EffectsLaws()
    ensures Lawful(EffectsCodec())
  {
    hide RoundTrips, Canonical, Pair, Mapped, EnumCodec, Texts, BoolCodec;
    EnumLaws(0, 4);
    TextsLaws();
    BoolLaws();
    PairLaws(Texts(), BoolCodec());
    PairLaws(EnumCodec(0, 4), Pair(Texts(), BoolCodec()));
    MappedLaws(Pair(EnumCodec(0, 4), Pair(Texts(), BoolCodec())), ToEffects, FromEffects);
  }

  type DescriptorFields = (ThreeTexts, (bool, (bool, (bool, bool))))

  function DescriptorFieldsCodec(): Codec<DescriptorFields>
  {
    Pair(ThreeTextsCodec(), Pair(BoolCodec(), ThreeFlags()))
  }

  function ToDescriptor(p: DescriptorFields): Descriptor
  {
    Descriptor(p.0.0, p.0.1.0, p.0.1.1, p.1.0, p.1.1.0, p.1.1.1.0, p.1.1.1.1)
  }

  function FromDescriptor(d: Descriptor): DescriptorFields
  {
    ((d.id, (d.title, d.description)),
     (d.readable, (d.writable, (d.applySupported, d.variantsSupported))))
  }

  function DescriptorCodec(): Codec<Descriptor>
  {
    Mapped(DescriptorFieldsCodec(), ToDescriptor, FromDescriptor)
  }

  lemma DescriptorLaws()
    ensures Lawful(DescriptorCodec())
  {
    hide RoundTrips, Canonical, Pair, Mapped, ThreeTextsCodec, BoolCodec, ThreeFlags;
    TripleLaws();
    BoolLaws();
    PairLaws(BoolCodec(), ThreeFlags());
    PairLaws(ThreeTextsCodec(), Pair(BoolCodec(), ThreeFlags()));
    MappedLaws(DescriptorFieldsCodec(), ToDescriptor, FromDescriptor);
  }
}
