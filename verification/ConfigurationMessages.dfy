/**
 Configuration messages: when a message survives being encoded and decoded, and which payloads
 decode to it.
 */
module ConfigurationMessages {
  import opened ByteLayout
  import opened Readers
  import opened Codecs
  import opened Configuration

  datatype PatchRequest = PatchRequest(
    resourceId: Bytes,
    variantId: Bytes,
    expectedRevision: Bytes,
    updates: seq<FieldValue>,
    validateOnly: bool)

  datatype PatchResponse = PatchResponse(
    status: Status,
    snapshot: Snapshot,
    candidate: Option<Snapshot>,
    errors: seq<FieldError>,
    effects: Effects)

  datatype DescribeRequest = DescribeRequest(resourceId: Bytes, locale: Bytes)

  datatype DescribeResponse = DescribeResponse(
    status: Status,
    resource: Descriptor,
    fields: seq<FieldSchema>)

  // The limits, spelled out

  predicate TextWithin(v: Bytes)
  {
    |v| <= 1024
  }

  predicate TextsWithin(vs: seq<Bytes>)
  {
    |vs| <= 256 && forall i :: 0 <= i < |vs| ==> TextWithin(vs[i])
  }

  predicate ValueWithin(v: Value)
  {
    match v
    case DoubleValue(bits) => Finite(bits)
    case StringValue(text) => TextWithin(text)
    case StringListValue(texts) => TextsWithin(texts)
    case DoubleListValue(doubles) =>
      |doubles| <= 256 && forall i :: 0 <= i < |doubles| ==> Finite(doubles[i])
    case _ => true
  }

  predicate FieldValuesWithin(vs: seq<FieldValue>)
  {
    |vs| <= 256
    && forall i :: 0 <= i < |vs| ==> TextWithin(vs[i].path) && ValueWithin(vs[i].value)
  }

  predicate SnapshotWithin(s: Snapshot)
  {
    && TextWithin(s.resourceId) && TextWithin(s.revision) && TextWithin(s.appliedRevision)
    && TextWithin(s.variantId) && TextWithin(s.activeVariantId)
    && FieldValuesWithin(s.values) && TextsWithin(s.userOverriddenPaths)
  }

  predicate ErrorsWithin(es: seq<FieldError>)
  {
    |es| <= 256
    && forall i :: 0 <= i < |es| ==>
         TextWithin(es[i].path) && TextWithin(es[i].code) && TextWithin(es[i].message)
  }

  predicate SchemaWithin(s: FieldSchema)
  {
    && TextWithin(s.path) && TextWithin(s.title) && TextWithin(s.description)
    && TextWithin(s.validationPattern) && TextWithin(s.groupPath) && TextWithin(s.unit)
    && |s.choices| <= 256
    && (forall i :: 0 <= i < |s.choices| ==>
          ValueWithin(s.choices[i].value) && TextWithin(s.choices[i].caption))
    && (s.defaultValue.Some? ==> ValueWithin(s.defaultValue.value))
  }

  /** What only the reader checks of a schema. */
  predicate SchemaReadable(s: FieldSchema)
  {
    1 <= s.typ <= 6 && s.updatePolicy <= 5 && Finite(s.minimum.bits) && Finite(s.maximum.bits)
  }

  // What the writer checks is exactly these limits

  lemma ValueLimits(v: Value)
    ensures ValueFits(v) <==> ValueWithin(v)
    ensures ValueFits(v) ==> ValueGood(v)
  {
  }

  lemma FieldValueLimits(v: FieldValue)
    ensures FieldValueCodec().fits(v) <==> TextWithin(v.path) && ValueWithin(v.value)
    ensures FieldValueCodec().fits(v) ==> FieldValueCodec().good(v)
  {
    hide ValueFits, ValueGood, ValueWithin, Pair, Mapped;
    ValueLimits(v.value);
    MappedMeans(Pair(Text(), ValueCodec()), ToFieldValue, FromFieldValue, v);
    PairMeans(Text(), ValueCodec(), v.path, v.value);
  }

  lemma FieldValuesLimits(vs: seq<FieldValue>)
    ensures FieldValues().fits(vs) <==> FieldValuesWithin(vs)
    ensures FieldValues().fits(vs) ==> FieldValues().good(vs)
  {
    hide FieldValueCodec, ValueWithin;
    forall i | 0 <= i < |vs|
      ensures FieldValueCodec().fits(vs[i])
         <==> TextWithin(vs[i].path) && ValueWithin(vs[i].value)
      ensures FieldValueCodec().fits(vs[i]) ==> FieldValueCodec().good(vs[i])
    {
      FieldValueLimits(vs[i]);
    }
  }

  lemma TextsLimits(vs: seq<Bytes>)
    ensures Texts().fits(vs) <==> TextsWithin(vs)
    ensures Texts().good(vs)
  {
  }

  lemma SnapshotLimits(s: Snapshot)
    ensures SnapshotCodec().fits(s) <==> SnapshotWithin(s)
    ensures SnapshotCodec().fits(s) ==> SnapshotCodec().good(s)
  {
    hide FieldValues, Texts, FieldValuesWithin, TextsWithin, Pair, Mapped;
    FieldValuesLimits(s.values);
    TextsLimits(s.userOverriddenPaths);
    MappedMeans(SnapshotFieldsCodec(), ToSnapshot, FromSnapshot, s);
    var (c5, v5) := (Pair(FieldValues(), Texts()), (s.values, s.userOverriddenPaths));
    var (c4, v4) := (Pair(Text(), c5), (s.activeVariantId, v5));
    var (c3, v3) := (Pair(Text(), c4), (s.variantId, v4));
    var (c2, v2) := (Pair(Text(), c3), (s.appliedRevision, v3));
    PairMeans(FieldValues(), Texts(), s.values, s.userOverriddenPaths);
    PairMeans(Text(), c5, s.activeVariantId, v5);
    PairMeans(Text(), c4, s.variantId, v4);
    PairMeans(Text(), c3, s.appliedRevision, v3);
    PairMeans(Text(), c2, s.revision, v2);
    PairMeans(Text(), Pair(Text(), c2), s.resourceId, (s.revision, v2));
  }

  lemma ThreeTextsLimits(a: Bytes, b: Bytes, c: Bytes)
    ensures ThreeTextsCodec().fits((a, (b, c)))
       <==> TextWithin(a) && TextWithin(b) && TextWithin(c)
    ensures ThreeTextsCodec().good((a, (b, c)))
  {
    hide Pair;
    PairMeans(Text(), Text(), b, c);
    PairMeans(Text(), Pair(Text(), Text()), a, (b, c));
  }

  lemma ChoiceLimits(c: Choice)
    ensures ChoiceCodec().fits(c) <==> ValueWithin(c.value) && TextWithin(c.caption)
    ensures ChoiceCodec().fits(c) ==> ChoiceCodec().good(c)
  {
    hide ValueFits, ValueGood, ValueWithin, Pair, Mapped;
    ValueLimits(c.value);
    MappedMeans(Pair(ValueCodec(), Text()), ToChoice, FromChoice, c);
    PairMeans(ValueCodec(), Text(), c.value, c.caption);
  }

  lemma ChoicesLimits(cs: seq<Choice>)
    ensures Choices().fits(cs)
       <==> |cs| <= 256 && forall i :: 0 <= i < |cs| ==>
                             ValueWithin(cs[i].value) && TextWithin(cs[i].caption)
    ensures Choices().fits(cs) ==> Choices().good(cs)
  {
    hide ChoiceCodec, ValueWithin;
    forall i | 0 <= i < |cs|
      ensures ChoiceCodec().fits(cs[i])
         <==> ValueWithin(cs[i].value) && TextWithin(cs[i].caption)
      ensures ChoiceCodec().fits(cs[i]) ==> ChoiceCodec().good(cs[i])
    {
      ChoiceLimits(cs[i]);
    }
  }

  lemma LimitLimits(l: Limit)
    ensures LimitCodec().fits(l) && (LimitCodec().good(l) <==> Finite(l.bits))
  {
    hide Pair, Mapped, Finite;
    MappedMeans(Pair(BoolCodec(), DoubleField()), ToLimit, FromLimit, l);
    PairMeans(BoolCodec(), DoubleField(), l.present, l.bits);
  }

  lemma SchemaFrontLimits(s: FieldSchema)
    ensures
      var v := FromSchema(s).0;
      && (SchemaFrontCodec().fits(v)
          <==> TextWithin(s.path) && TextWithin(s.title) && TextWithin(s.description))
      && (SchemaFrontCodec().good(v)
          <==> 1 <= s.typ <= 6 && Finite(s.minimum.bits) && Finite(s.maximum.bits))
  {
    hide Pair, LimitCodec, ThreeTextsCodec, Finite;
    ThreeTextsLimits(s.path, s.title, s.description);
    LimitLimits(s.minimum);
    LimitLimits(s.maximum);
    var (c3, v3) := (Pair(LimitCodec(), LimitCodec()), (s.minimum, s.maximum));
    var flags := (s.required, (s.readOnly, s.sensitive));
    var (c2, v2) := (Pair(ThreeFlags(), c3), (flags, v3));
    PairMeans(LimitCodec(), LimitCodec(), s.minimum, s.maximum);
    PairMeans(BoolCodec(), BoolCodec(), s.readOnly, s.sensitive);
    PairMeans(BoolCodec(), Pair(BoolCodec(), BoolCodec()), s.required, flags.1);
    PairMeans(ThreeFlags(), c3, flags, v3);
    PairMeans(SchemaType(), c2, s.typ, v2);
    PairMeans(ThreeTextsCodec(), Pair(SchemaType(), c2), (s.path, (s.title, s.description)),
              (s.typ, v2));
  }

  lemma SchemaMiddleLimits(s: FieldSchema)
    ensures
      var v := FromSchema(s).1.0;
      && (SchemaMiddleCodec().fits(v)
          <==> TextWithin(s.validationPattern) && Choices().fits(s.choices)
               && TextWithin(s.groupPath) && TextWithin(s.unit))
      && (SchemaMiddleCodec().good(v) <==> Choices().good(s.choices) && s.updatePolicy <= 5)
  {
    hide Pair, Choices;
    var (c3, v3) := (Pair(UpdatePolicy(), Text()), (s.updatePolicy, s.unit));
    var (c2, v2) := (Pair(Text(), c3), (s.groupPath, v3));
    PairMeans(UpdatePolicy(), Text(), s.updatePolicy, s.unit);
    PairMeans(Text(), c3, s.groupPath, v3);
    PairMeans(Choices(), c2, s.choices, v2);
    PairMeans(Text(), Pair(Choices(), c2), s.validationPattern, (s.choices, v2));
  }

  lemma SchemaBackLimits(s: FieldSchema)
    ensures
      var v := FromSchema(s).1.1;
      && (SchemaBackCodec().fits(v)
          <==> (s.defaultValue.Some? ==> ValueWithin(s.defaultValue.value)))
      && (SchemaBackCodec().fits(v) ==> SchemaBackCodec().good(v))
  {
    hide Pair, ValueFits, ValueGood, ValueWithin;
    PairMeans(Optional(ValueCodec()), BoolCodec(), s.defaultValue, s.advanced);
    if s.defaultValue.Some? {
      ValueLimits(s.defaultValue.value);
    }
  }

  lemma SchemaLimits(s: FieldSchema)
    ensures SchemaCodec().fits(s) <==> SchemaWithin(s)
    ensures SchemaCodec().fits(s) ==> (SchemaCodec().good(s) <==> SchemaReadable(s))
  {
    hide Pair, Mapped, SchemaFrontCodec, SchemaMiddleCodec, SchemaBackCodec, Choices, ValueWithin,
      Finite;
    var (front, (middle, back)) := FromSchema(s);
    MappedMeans(Pair(SchemaFrontCodec(), Pair(SchemaMiddleCodec(), SchemaBackCodec())), ToSchema,
                FromSchema, s);
    PairMeans(SchemaFrontCodec(), Pair(SchemaMiddleCodec(), SchemaBackCodec()), front,
              (middle, back));
    PairMeans(SchemaMiddleCodec(), SchemaBackCodec(), middle, back);
    SchemaFrontLimits(s);
    SchemaMiddleLimits(s);
    SchemaBackLimits(s);
    ChoicesLimits(s.choices);
  }

  // Patch requests

  function ToPatchRequest(p: (ThreeTexts, (seq<FieldValue>, bool))): PatchRequest
  {
    PatchRequest(p.0.0, p.0.1.0, p.0.1.1, p.1.0, p.1.1)
  }

  function FromPatchRequest(m: PatchRequest): (ThreeTexts, (seq<FieldValue>, bool))
  {
    ((m.resourceId, (m.variantId, m.expectedRevision)), (m.updates, m.validateOnly))
  }

  function PatchRequestCodec(): Codec<PatchRequest>
  {
    Mapped(Pair(ThreeTextsCodec(), Pair(FieldValues(), BoolCodec())), ToPatchRequest,
           FromPatchRequest)
  }

  lemma PatchRequestLaws()
    ensures Lawful(PatchRequestCodec())
  {
    hide RoundTrips, Canonical, Pair, Mapped, ThreeTextsCodec, FieldValues, BoolCodec;
    TripleLaws();
    SnapshotFieldsLaws();
    BoolLaws();
    PairLaws(FieldValues(), BoolCodec());
    PairLaws(ThreeTextsCodec(), Pair(FieldValues(), BoolCodec()));
    MappedLaws(Pair(ThreeTextsCodec(), Pair(FieldValues(), BoolCodec())), ToPatchRequest,
               FromPatchRequest);
  }

  predicate PatchRequestWithin(m: PatchRequest)
  {
    && TextWithin(m.resourceId) && TextWithin(m.variantId) && TextWithin(m.expectedRevision)
    && FieldValuesWithin(m.updates)
  }

  lemma PatchRequestLimits(m: PatchRequest)
    ensures PatchRequestCodec().fits(m) <==> PatchRequestWithin(m)
    ensures PatchRequestCodec().fits(m) ==> PatchRequestCodec().good(m)
  {
    hide FieldValues, FieldValuesWithin, Pair, Mapped, ThreeTextsCodec;
    FieldValuesLimits(m.updates);
    ThreeTextsLimits(m.resourceId, m.variantId, m.expectedRevision);
    MappedMeans(Pair(ThreeTextsCodec(), Pair(FieldValues(), BoolCodec())), ToPatchRequest,
                FromPatchRequest, m);
    PairMeans(ThreeTextsCodec(), Pair(FieldValues(), BoolCodec()),
              (m.resourceId, (m.variantId, m.expectedRevision)), (m.updates, m.validateOnly));
    PairMeans(FieldValues(), BoolCodec(), m.updates, m.validateOnly);
  }

  lemma NoEmptyPatchRequest()
    ensures Parse(PatchRequestCodec(), []).None?
  {
    hide FieldValues;
    assert TakeText([]).None?;
  }

  /** A patch request survives if and only if it is within the limits at every depth. */
  lemma PatchRequestRoundTrip(m: PatchRequest)
    ensures Parse(PatchRequestCodec(), Build(PatchRequestCodec(), m)) == Some(m)
       <==> PatchRequestWithin(m)
    ensures !PatchRequestWithin(m) ==> Build(PatchRequestCodec(), m) == []
  {
    hide PatchRequestCodec, RoundTrips, Canonical, PatchRequestWithin, Parse;
    PatchRequestLaws();
    PatchRequestLimits(m);
    NoEmptyPatchRequest();
    if PatchRequestWithin(m) {
      BuildParse(PatchRequestCodec(), m);
    }
  }

  // Patch responses

  type PatchResponseFields =
    (Status, (Snapshot, (Option<Snapshot>, (seq<FieldError>, Effects))))

  function ToPatchResponse(p: PatchResponseFields): PatchResponse
  {
    PatchResponse(p.0, p.1.0, p.1.1.0, p.1.1.1.0, p.1.1.1.1)
  }

  function FromPatchResponse(m: PatchResponse): PatchResponseFields
  {
    (m.status, (m.snapshot, (m.candidate, (m.errors, m.effects))))
  }

  function FieldErrors(): Codec<seq<FieldError>>
  {
    Vector(FieldErrorCodec(), MAX_CONFIG_ITEMS)
  }

  function PatchResponseFieldsCodec(): Codec<PatchResponseFields>
  {
    Pair(StatusCodec(), Pair(SnapshotCodec(), Pair(Optional(SnapshotCodec()),
         Pair(FieldErrors(), EffectsCodec()))))
  }

  function PatchResponseCodec(): Codec<PatchResponse>
  {
    Mapped(PatchResponseFieldsCodec(), ToPatchResponse, FromPatchResponse)
  }

  lemma PatchResponseFieldsLaws()
    ensures Lawful(PatchResponseFieldsCodec())
  {
    hide Lawful, Pair, Optional, StatusCodec, SnapshotCodec, FieldErrorCodec, EffectsCodec;
    StatusLaws();
    SnapshotLaws();
    EffectsLaws();
    OptionalLaws(SnapshotCodec());
    VectorLaws(FieldErrorCodec(), MAX_CONFIG_ITEMS);
    hide Vector;
    var c1 := Pair(FieldErrors(), EffectsCodec());
    PairLaws(FieldErrors(), EffectsCodec());
    PairLaws(Optional(SnapshotCodec()), c1);
    PairLaws(SnapshotCodec(), Pair(Optional(SnapshotCodec()), c1));
    PairLaws(StatusCodec(), Pair(SnapshotCodec(), Pair(Optional(SnapshotCodec()), c1)));
  }

  lemma PatchResponseLaws()
    ensures Lawful(PatchResponseCodec())
  {
    hide RoundTrips, Canonical, Mapped, PatchResponseFieldsCodec;
    PatchResponseFieldsLaws();
    MappedLaws(PatchResponseFieldsCodec(), ToPatchResponse, FromPatchResponse);
  }

  predicate PatchResponseWithin(m: PatchResponse)
  {
    && TextWithin(m.status.message) && SnapshotWithin(m.snapshot)
    && (m.candidate.Some? ==> SnapshotWithin(m.candidate.value))
    && ErrorsWithin(m.errors) && TextsWithin(m.effects.affectedComponents)
  }

  /** What only the reader checks of a patch response. */
  predicate PatchResponseReadable(m: PatchResponse)
  {
    m.status.code <= 8 && m.effects.requirement <= 4
  }

  lemma ErrorsLimits(es: seq<FieldError>)
    ensures FieldErrors().fits(es) <==> ErrorsWithin(es)
    ensures FieldErrors().good(es)
  {
    hide ThreeTextsCodec, TextWithin;
    forall i | 0 <= i < |es|
      ensures FieldErrorCodec().good(es[i])
      ensures FieldErrorCodec().fits(es[i])
         <==> TextWithin(es[i].path) && TextWithin(es[i].code) && TextWithin(es[i].message)
    {
      ThreeTextsLimits(es[i].path, es[i].code, es[i].message);
      MappedMeans(ThreeTextsCodec(), ToFieldError, FromFieldError, es[i]);
    }
  }

  lemma StatusLimits(s: Status)
    ensures StatusCodec().fits(s) <==> TextWithin(s.message)
    ensures StatusCodec().good(s) <==> s.code <= 8
  {
    hide Pair, Mapped;
    MappedMeans(Pair(EnumCodec(0, 8), Text()), ToStatus, FromStatus, s);
    PairMeans(EnumCodec(0, 8), Text(), s.code, s.message);
  }

  lemma EffectsLimits(e: Effects)
    ensures EffectsCodec().fits(e) <==> TextsWithin(e.affectedComponents)
    ensures EffectsCodec().good(e) <==> e.requirement <= 4
  {
    hide Pair, Mapped, Texts, TextsWithin;
    TextsLimits(e.affectedComponents);
    MappedMeans(Pair(EnumCodec(0, 4), Pair(Texts(), BoolCodec())), ToEffects, FromEffects, e);
    PairMeans(EnumCodec(0, 4), Pair(Texts(), BoolCodec()), e.requirement,
              (e.affectedComponents, e.reconnectExpected));
    PairMeans(Texts(), BoolCodec(), e.affectedComponents, e.reconnectExpected);
  }

  lemma PatchResponseLimits(m: PatchResponse)
    ensures PatchResponseCodec().fits(m) <==> PatchResponseWithin(m)
    ensures PatchResponseCodec().fits(m) ==>
      (PatchResponseCodec().good(m) <==> PatchResponseReadable(m))
  {
    hide SnapshotCodec, FieldErrors, EffectsCodec, StatusCodec, SnapshotWithin, ErrorsWithin,
      TextsWithin, Pair, Mapped;
    StatusLimits(m.status);
    EffectsLimits(m.effects);
    MappedMeans(PatchResponseFieldsCodec(), ToPatchResponse, FromPatchResponse, m);
    var (c3, v3) := (Pair(FieldErrors(), EffectsCodec()), (m.errors, m.effects));
    var (c2, v2) := (Pair(Optional(SnapshotCodec()), c3), (m.candidate, v3));
    PairMeans(FieldErrors(), EffectsCodec(), m.errors, m.effects);
    PairMeans(Optional(SnapshotCodec()), c3, m.candidate, v3);
    PairMeans(SnapshotCodec(), c2, m.snapshot, v2);
    PairMeans(StatusCodec(), Pair(SnapshotCodec(), c2), m.status, (m.snapshot, v2));
    SnapshotLimits(m.snapshot);
    if m.candidate.Some? {
      SnapshotLimits(m.candidate.value);
    }
    ErrorsLimits(m.errors);
  }

  lemma NoEmptyPatchResponse()
    ensures Parse(PatchResponseCodec(), []).None?
  {
    hide SnapshotCodec, FieldErrors, EffectsCodec;
  }

  /**
   A patch response, with or without its candidate snapshot, survives if and only if it is
   within the limits at every depth and its two enumerators are named ones. A limit broken at
   any depth makes the payload empty; an unnamed enumerator is written and then refused.
   */
  lemma PatchResponseRoundTrip(m: PatchResponse)
    ensures Parse(PatchResponseCodec(), Build(PatchResponseCodec(), m)) == Some(m)
       <==> PatchResponseWithin(m) && PatchResponseReadable(m)
    ensures !PatchResponseWithin(m) ==> Build(PatchResponseCodec(), m) == []
  {
    hide PatchResponseCodec, RoundTrips, Canonical, PatchResponseWithin, PatchResponseReadable,
      Parse;
    PatchResponseLaws();
    PatchResponseLimits(m);
    NoEmptyPatchResponse();
    if PatchResponseWithin(m) {
      BuildParse(PatchResponseCodec(), m);
    }
  }

  /** And a payload that decodes to a response within the limits is the one it encodes to. */
  lemma PatchResponseCanonical(bytes: Bytes)
    requires Parse(PatchResponseCodec(), bytes).Some?
    ensures
      var m := Parse(PatchResponseCodec(), bytes).value;
      PatchResponseWithin(m) ==>
        PatchResponseReadable(m) && Build(PatchResponseCodec(), m) == bytes
  {
    hide PatchResponseCodec, RoundTrips, Canonical, PatchResponseWithin, PatchResponseReadable,
      Parse;
    PatchResponseLaws();
    PatchResponseLimits(Parse(PatchResponseCodec(), bytes).value);
    ParseBuild(PatchResponseCodec(), bytes);
  }

  // Describe responses

  function ToDescribeResponse(p: (Status, (Descriptor, seq<FieldSchema>))): DescribeResponse
  {
    DescribeResponse(p.0, p.1.0, p.1.1)
  }

  function FromDescribeResponse(m: DescribeResponse): (Status, (Descriptor, seq<FieldSchema>))
  {
    (m.status, (m.resource, m.fields))
  }

  function Schemas(): Codec<seq<FieldSchema>>
  {
    Vector(SchemaCodec(), MAX_CONFIG_ITEMS)
  }

  function DescribeResponseCodec(): Codec<DescribeResponse>
  {
    Mapped(Pair(StatusCodec(), Pair(DescriptorCodec(), Schemas())), ToDescribeResponse,
           FromDescribeResponse)
  }

  lemma DescribeResponseLaws()
    ensures Lawful(DescribeResponseCodec())
  {
    hide RoundTrips, Canonical, Pair, Mapped, StatusCodec, DescriptorCodec, SchemaCodec;
    StatusLaws();
    DescriptorLaws();
    SchemaLaws();
    VectorLaws(SchemaCodec(), MAX_CONFIG_ITEMS);
    hide Vector;
    PairLaws(DescriptorCodec(), Schemas());
    PairLaws(StatusCodec(), Pair(DescriptorCodec(), Schemas()));
    MappedLaws(Pair(StatusCodec(), Pair(DescriptorCodec(), Schemas())), ToDescribeResponse,
               FromDescribeResponse);
  }

  predicate DescribeResponseWithin(m: DescribeResponse)
  {
    && TextWithin(m.status.message) && TextWithin(m.resource.id) && TextWithin(m.resource.title)
    && TextWithin(m.resource.description) && |m.fields| <= 256
    && forall i :: 0 <= i < |m.fields| ==> SchemaWithin(m.fields[i])
  }

  predicate DescribeResponseReadable(m: DescribeResponse)
  {
    m.status.code <= 8 && forall i :: 0 <= i < |m.fields| ==> SchemaReadable(m.fields[i])
  }

  lemma SchemasLimits(fs: seq<FieldSchema>)
    ensures Schemas().fits(fs)
       <==> |fs| <= 256 && forall i :: 0 <= i < |fs| ==> SchemaWithin(fs[i])
    ensures Schemas().fits(fs) ==>
      (Schemas().good(fs) <==> forall i :: 0 <= i < |fs| ==> SchemaReadable(fs[i]))
  {
    hide SchemaCodec, SchemaWithin, SchemaReadable;
    forall i | 0 <= i < |fs|
      ensures SchemaCodec().fits(fs[i]) <==> SchemaWithin(fs[i])
      ensures SchemaCodec().fits(fs[i]) ==>
        (SchemaCodec().good(fs[i]) <==> SchemaReadable(fs[i]))
    {
      SchemaLimits(fs[i]);
    }
  }

  lemma DescriptorLimits(d: Descriptor)
    ensures DescriptorCodec().fits(d)
       <==> TextWithin(d.id) && TextWithin(d.title) && TextWithin(d.description)
    ensures DescriptorCodec().good(d)
  {
    hide Pair, Mapped, ThreeTextsCodec;
    ThreeTextsLimits(d.id, d.title, d.description);
    MappedMeans(DescriptorFieldsCodec(), ToDescriptor, FromDescriptor, d);
    var flags := (d.writable, (d.applySupported, d.variantsSupported));
    PairMeans(BoolCodec(), BoolCodec(), d.applySupported, d.variantsSupported);
    PairMeans(BoolCodec(), Pair(BoolCodec(), BoolCodec()), d.writable, flags.1);
    PairMeans(BoolCodec(), ThreeFlags(), d.readable, flags);
    PairMeans(ThreeTextsCodec(), Pair(BoolCodec(), ThreeFlags()),
              (d.id, (d.title, d.description)), (d.readable, flags));
  }

  lemma DescribeResponseLimits(m: DescribeResponse)
    ensures DescribeResponseCodec().fits(m) <==> DescribeResponseWithin(m)
    ensures DescribeResponseCodec().fits(m) ==>
      (DescribeResponseCodec().good(m) <==> DescribeResponseReadable(m))
  {
    hide Schemas, SchemaWithin, SchemaReadable, Pair, Mapped, StatusCodec, DescriptorCodec;
    SchemasLimits(m.fields);
    StatusLimits(m.status);
    DescriptorLimits(m.resource);
    MappedMeans(Pair(StatusCodec(), Pair(DescriptorCodec(), Schemas())), ToDescribeResponse,
                FromDescribeResponse, m);
    PairMeans(StatusCodec(), Pair(DescriptorCodec(), Schemas()), m.status, (m.resource, m.fields));
    PairMeans(DescriptorCodec(), Schemas(), m.resource, m.fields);
  }

  lemma NoEmptyDescribeResponse()
    ensures Parse(DescribeResponseCodec(), []).None?
  {
    hide Schemas, DescriptorCodec;
  }

  /**
   A describe response survives if and only if it is within the limits, its enumerators are
   named ones, and the bounds of every field are finite, present or not: the writer does not
   check the bounds, the reader does.
   */
  lemma DescribeResponseRoundTrip(m: DescribeResponse)
    ensures Parse(DescribeResponseCodec(), Build(DescribeResponseCodec(), m)) == Some(m)
       <==> DescribeResponseWithin(m) && DescribeResponseReadable(m)
    ensures !DescribeResponseWithin(m) ==> Build(DescribeResponseCodec(), m) == []
  {
    hide DescribeResponseCodec, RoundTrips, Canonical, DescribeResponseWithin,
      DescribeResponseReadable, Parse;
    DescribeResponseLaws();
    DescribeResponseLimits(m);
    NoEmptyDescribeResponse();
    if DescribeResponseWithin(m) {
      BuildParse(DescribeResponseCodec(), m);
    }
  }

  // Describe requests: an optional locale at the very end

  function EncodeDescribeRequest(m: DescribeRequest): Bytes
  {
    if !TextWithin(m.resourceId) || !TextWithin(m.locale) then []
    else PutText(m.resourceId) + (if m.locale == [] then [] else PutText(m.locale))
  }

  function DecodeDescribeRequest(bytes: Bytes): Option<DescribeRequest>
  {
    var (resourceId, rest) :- TakeText(bytes);
    if rest == [] then Some(DescribeRequest(resourceId, []))
    else
      var (locale, left) :- TakeText(rest);
      if left == [] then Some(DescribeRequest(resourceId, locale)) else None
  }

  lemma DescribeRequestRoundTrip(m: DescribeRequest)
    ensures DecodeDescribeRequest(EncodeDescribeRequest(m)) == Some(m)
       <==> TextWithin(m.resourceId) && TextWithin(m.locale)
  {
    hide TakeText, PutText;
    if TextWithin(m.resourceId) && TextWithin(m.locale) {
      var tail := if m.locale == [] then [] else PutText(m.locale);
      TakePutText(m.resourceId, tail);
      if m.locale != [] {
        TextNonempty(m.locale);
        TakePutText(m.locale, []);
        assert PutText(m.locale) + [] == PutText(m.locale);
      }
    } else {
      NoEmptyText();
    }
  }

  lemma TextNonempty(v: Bytes)
    ensures PutText(v) != []
  {
  }

  lemma NoEmptyText()
    ensures TakeText([]).None?
  {
  }

  /**
   Exactly two payloads decode to a request without a locale: the one it encodes to, and that
   one with an empty locale written out. A request with a locale has one payload.
   */
  lemma DescribeRequestPayloads(bytes: Bytes, m: DescribeRequest)
    requires TextWithin(m.resourceId) && TextWithin(m.locale)
    ensures DecodeDescribeRequest(bytes) == Some(m)
       <==> bytes == EncodeDescribeRequest(m)
            || (m.locale == [] && bytes == EncodeDescribeRequest(m) + [0, 0])
  {
    hide TakeText;
    if DecodeDescribeRequest(bytes) == Some(m) {
      PutTakeText(bytes);
      var (resourceId, rest) := TakeText(bytes).value;
      if rest != [] {
        PutTakeText(rest);
        assert PutText(m.locale) + [] == PutText(m.locale);
      }
      assert PutText([]) == [0, 0];
    }
    DescribeRequestRoundTrip(m);
    if m.locale == [] && bytes == EncodeDescribeRequest(m) + [0, 0] {
      assert bytes == PutText(m.resourceId) + [0, 0];
      TakePutText(m.resourceId, [0, 0]);
      assert PutText([]) + [] == [0, 0];
      TakePutText([], []);
    }
  }
}
