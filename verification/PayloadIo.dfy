/**
 The configuration codec as the program runs it: a writer that grows a buffer behind a flag
 which stays down once a limit is broken, and a reader that advances a cursor. The largest
 message, the patch response, is written and read part by part.
 */
module PayloadIo {
  import opened ByteLayout
  import opened Readers
  import opened Codecs
  import opened Configuration
  import opened ConfigurationMessages

  // Writing

  /** The buffer and the flag. */
  datatype Output = Output(data: Bytes, valid: bool)

  /** One value was written: the flag stays up only if it fits, and then its bytes follow. */
  predicate Wrote<T>(c: Codec<T>, v: T, before: Output, after: Output)
  {
    && (after.valid <==> before.valid && c.fits(v))
    && (after.valid ==> after.data == before.data + c.put(v))
  }

  lemma ThenWrote<A(!new), B(!new)>(a: Codec<A>, b: Codec<B>, x: A, y: B, s0: Output, s1: Output,
                                    s2: Output)
    requires Wrote(a, x, s0, s1) && Wrote(b, y, s1, s2)
    ensures Wrote(Pair(a, b), (x, y), s0, s2)
  {
    PairMeans(a, b, x, y);
    assert Pair(a, b).put((x, y)) == a.put(x) + b.put(y);
    assert s0.data + a.put(x) + b.put(y) == s0.data + (a.put(x) + b.put(y));
  }

  lemma WroteMapped<A(!new), B(!new)>(a: Codec<A>, to: A -> B, from: B -> A, v: B, s0: Output,
                                      s1: Output)
    requires Wrote(a, from(v), s0, s1)
    ensures Wrote(Mapped(a, to, from), v, s0, s1)
  {
  }

  class BufferWriter {
    var data: Bytes
    var valid: bool

    constructor ()
      ensures State() == Output([], true)
    {
      data, valid := [], true;
    }

    function State(): Output
      reads this
    {
      Output(data, valid)
    }

    method Byte(v: byte)
      modifies this
      ensures Wrote(ByteCodec(), v, old(State()), State())
    {
      data := data + [v];
    }

    method Enum(v: byte, ghost least: byte, ghost greatest: byte)
      modifies this
      ensures Wrote(EnumCodec(least, greatest), v, old(State()), State())
    {
      data := data + [v];
    }

    method Bool(v: bool)
      modifies this
      ensures Wrote(BoolCodec(), v, old(State()), State())
    {
      data := data + [if v then 1 else 0];
    }

    /** `write_u64`. */
    method U64(v: u64)
      modifies this
      ensures Wrote(U64Codec(), v, old(State()), State())
    {
      data := AppendLe(data, v, 8);
    }

    /** `write_string`. */
    method String(v: Bytes)
      modifies this
      ensures Wrote(Text(), v, old(State()), State())
    {
      hide Le;
      if |v| > 1024 {
        valid := false;
        return;
      }
      ghost var before := data;
      data := AppendLe(data, |v|, 2);
      data := data + v;
      assert data == before + PutText(v);
    }

    /** The `kDouble` branch: what is not finite lowers the flag. */
    method FiniteDouble(bits: u64)
      modifies this
      ensures Wrote(DoubleItem(), bits, old(State()), State())
    {
      hide Finite, Le;
      if !Finite(bits) {
        valid := false;
        return;
      }
      data := AppendLe(data, bits, 8);
    }

    lemma WroteFront<T(!new)>(c: Codec<T>, values: seq<T>, i: nat, s0: Output, s1: Output)
      requires i < |values|
      requires Wrote(c, values[i], s0, s1)
      ensures s1.valid && AllOf(values[i + 1..], c.fits)
         <==> s0.valid && AllOf(values[i..], c.fits)
      ensures s1.valid ==>
        s1.data + PutAll(values[i + 1..], c.put) == s0.data + PutAll(values[i..], c.put)
    {
      var rest := values[i..];
      assert rest[1..] == values[i + 1..];
      AllOfRest(rest, c.fits);
      assert s0.data + (c.put(values[i]) + PutAll(rest[1..], c.put))
          == s0.data + c.put(values[i]) + PutAll(rest[1..], c.put);
    }

    /** What the writer has done once `values[..i]` are out. */
    predicate Listing<T>(c: Codec<T>, values: seq<T>, i: nat, begun: Output, now: Output)
      requires i <= |values|
    {
      && (now.valid && AllOf(values[i..], c.fits) <==> begun.valid && AllOf(values, c.fits))
      && (now.valid ==>
            now.data + PutAll(values[i..], c.put) == begun.data + PutAll(values, c.put))
    }

    lemma ListBegins<T(!new)>(c: Codec<T>, values: seq<T>, begun: Output)
      ensures Listing(c, values, 0, begun, begun)
    {
      assert values[0..] == values;
    }

    lemma ListGoesOn<T(!new)>(c: Codec<T>, values: seq<T>, i: nat, begun: Output, s0: Output, s1: Output)
      requires i < |values| && Listing(c, values, i, begun, s0) && Wrote(c, values[i], s0, s1)
      ensures Listing(c, values, i + 1, begun, s1)
    {
      hide AllOf;
      WroteFront(c, values, i, s0, s1);
    }

    lemma ListEnds<T(!new)>(c: Codec<T>, max: u16, values: seq<T>, s0: Output, begun: Output,
                      s1: Output)
      requires |values| <= max
      requires begun == Output(s0.data + Le(|values|, 2), s0.valid)
      requires Listing(c, values, |values|, begun, s1)
      ensures Wrote(Vector(c, max), values, s0, s1)
    {
      hide Le, AllOf, PutAll;
      NoneLeft(c, values[|values|..]);
      assert begun.data + PutAll(values, c.put)
          == s0.data + (Le(|values|, 2) + PutAll(values, c.put));
    }

    lemma NoneLeft<T(!new)>(c: Codec<T>, rest: seq<T>)
      requires rest == []
      ensures AllOf(rest, c.fits)
      ensures forall data: Bytes :: data + PutAll(rest, c.put) == data
    {
    }

    /** `write_strings`. */
    method Strings(values: seq<Bytes>)
      modifies this
      ensures Wrote(Texts(), values, old(State()), State())
    {
      hide Listing, Text;
      if |values| > 256 {
        valid := false;
        return;
      }
      data := AppendLe(data, |values|, 2);
      ghost var begun := State();
      ListBegins(Text(), values, begun);
      for i := 0 to |values|
        invariant Listing(Text(), values, i, begun, State())
      {
        ghost var s := State();
        String(values[i]);
        ListGoesOn(Text(), values, i, begun, s, State());
      }
      ListEnds(Text(), MAX_CONFIG_ITEMS, values, old(State()), begun, State());
    }

    /** The `kDoubleList` branch. */
    method DoubleList(values: seq<u64>)
      modifies this
      ensures Wrote(Doubles(), values, old(State()), State())
    {
      hide Listing, DoubleItem;
      if |values| > 256 {
        valid := false;
        return;
      }
      data := AppendLe(data, |values|, 2);
      ghost var begun := State();
      ListBegins(DoubleItem(), values, begun);
      for i := 0 to |values|
        invariant Listing(DoubleItem(), values, i, begun, State())
      {
        ghost var s := State();
        FiniteDouble(values[i]);
        ListGoesOn(DoubleItem(), values, i, begun, s, State());
      }
      ListEnds(DoubleItem(), MAX_CONFIG_ITEMS, values, old(State()), begun, State());
    }

    /** `write_value`. */
    method WriteValue(v: Value)
      modifies this
      ensures Wrote(ValueCodec(), v, old(State()), State())
    {
      hide Texts, Doubles, DoubleItem, Text;
      ghost var before := data;
      match v {
        case BoolValue(flag) =>
          Byte(1);
          Bool(flag);
          Regroup(before, 1, BoolCodec().put(flag));
        case Int64Value(number) =>
          Byte(2);
          U64(Unsigned(number));
          Regroup(before, 2, Int64().put(number));
        case DoubleValue(bits) =>
          Byte(3);
          FiniteDouble(bits);
          Regroup(before, 3, DoubleItem().put(bits));
        case StringValue(text) =>
          Byte(4);
          String(text);
          Regroup(before, 4, Text().put(text));
        case StringListValue(texts) =>
          Byte(5);
          Strings(texts);
          Regroup(before, 5, Texts().put(texts));
        case DoubleListValue(doubles) =>
          Byte(6);
          DoubleList(doubles);
          Regroup(before, 6, Doubles().put(doubles));
        case Unset =>
          Byte(7);
      }
    }

    lemma Regroup(before: Bytes, tag: byte, body: Bytes)
      ensures before + [tag] + body == before + ([tag] + body)
    {
    }

    /** `write_field_value`. */
    method WriteFieldValue(v: FieldValue)
      modifies this
      ensures Wrote(FieldValueCodec(), v, old(State()), State())
    {
      hide Wrote, Pair, Mapped, Text, ValueCodec;
      String(v.path);
      ghost var s := State();
      WriteValue(v.value);
      ThenWrote(Text(), ValueCodec(), v.path, v.value, old(State()), s, State());
      WroteMapped(Pair(Text(), ValueCodec()), ToFieldValue, FromFieldValue, v, old(State()),
                  State());
    }

    method WriteFieldValues(values: seq<FieldValue>)
      modifies this
      ensures Wrote(FieldValues(), values, old(State()), State())
    {
      hide Listing, FieldValueCodec;
      if |values| > 256 {
        valid := false;
        return;
      }
      data := AppendLe(data, |values|, 2);
      ghost var begun := State();
      ListBegins(FieldValueCodec(), values, begun);
      for i := 0 to |values|
        invariant Listing(FieldValueCodec(), values, i, begun, State())
      {
        ghost var s := State();
        WriteFieldValue(values[i]);
        ListGoesOn(FieldValueCodec(), values, i, begun, s, State());
      }
      ListEnds(FieldValueCodec(), MAX_CONFIG_ITEMS, values, old(State()), begun, State());
    }

    /** `write_snapshot`. */
    method WriteSnapshot(v: Snapshot)
      modifies this
      ensures Wrote(SnapshotCodec(), v, old(State()), State())
    {
      hide Wrote, Pair, Mapped, Text, FieldValues, Texts;
      ghost var s0 := State();
      String(v.resourceId);
      ghost var s1 := State();
      String(v.revision);
      ghost var s2 := State();
      String(v.appliedRevision);
      ghost var s3 := State();
      String(v.variantId);
      ghost var s4 := State();
      String(v.activeVariantId);
      ghost var s5 := State();
      WriteFieldValues(v.values);
      ghost var s6 := State();
      Strings(v.userOverriddenPaths);
      ghost var s7 := State();
      ghost var (c5, v5) := (Pair(FieldValues(), Texts()), (v.values, v.userOverriddenPaths));
      ghost var (c4, v4) := (Pair(Text(), c5), (v.activeVariantId, v5));
      ghost var (c3, v3) := (Pair(Text(), c4), (v.variantId, v4));
      ghost var (c2, v2) := (Pair(Text(), c3), (v.appliedRevision, v3));
      ThenWrote(FieldValues(), Texts(), v.values, v.userOverriddenPaths, s5, s6, s7);
      ThenWrote(Text(), c5, v.activeVariantId, v5, s4, s5, s7);
      ThenWrote(Text(), c4, v.variantId, v4, s3, s4, s7);
      ThenWrote(Text(), c3, v.appliedRevision, v3, s2, s3, s7);
      ThenWrote(Text(), c2, v.revision, v2, s1, s2, s7);
      ThenWrote(Text(), Pair(Text(), c2), v.resourceId, (v.revision, v2), s0, s1, s7);
      WroteMapped(SnapshotFieldsCodec(), ToSnapshot, FromSnapshot, v, s0, s7);
    }

    /** The candidate snapshot behind its flag. */
    method WriteCandidate(v: Option<Snapshot>)
      modifies this
      ensures Wrote(Optional(SnapshotCodec()), v, old(State()), State())
    {
      hide SnapshotCodec;
      ghost var before := data;
      Bool(v.Some?);
      if v.Some? {
        WriteSnapshot(v.value);
        assert valid ==> data == before + ([1] + SnapshotCodec().put(v.value));
      }
    }

    /** `write_field_error`. */
    method WriteFieldError(e: FieldError)
      modifies this
      ensures Wrote(FieldErrorCodec(), e, old(State()), State())
    {
      hide Wrote, Pair, Mapped, Text;
      String(e.path);
      ghost var s1 := State();
      String(e.code);
      ghost var s2 := State();
      String(e.message);
      ThenWrote(Text(), Text(), e.code, e.message, s1, s2, State());
      ThenWrote(Text(), Pair(Text(), Text()), e.path, (e.code, e.message), old(State()), s1,
                State());
      WroteMapped(ThreeTextsCodec(), ToFieldError, FromFieldError, e, old(State()), State());
    }

    method WriteFieldErrors(values: seq<FieldError>)
      modifies this
      ensures Wrote(FieldErrors(), values, old(State()), State())
    {
      hide Listing, FieldErrorCodec;
      if |values| > 256 {
        valid := false;
        return;
      }
      data := AppendLe(data, |values|, 2);
      ghost var begun := State();
      ListBegins(FieldErrorCodec(), values, begun);
      for i := 0 to |values|
        invariant Listing(FieldErrorCodec(), values, i, begun, State())
      {
        ghost var s := State();
        WriteFieldError(values[i]);
        ListGoesOn(FieldErrorCodec(), values, i, begun, s, State());
      }
      ListEnds(FieldErrorCodec(), MAX_CONFIG_ITEMS, values, old(State()), begun, State());
    }

    /** `write_effects`. */
    method WriteEffects(e: Effects)
      modifies this
      ensures Wrote(EffectsCodec(), e, old(State()), State())
    {
      hide Wrote, Pair, Mapped, Texts, EnumCodec, BoolCodec;
      Enum(e.requirement, 0, 4);
      ghost var s1 := State();
      Strings(e.affectedComponents);
      ghost var s2 := State();
      Bool(e.reconnectExpected);
      ghost var (c, v) := (Pair(Texts(), BoolCodec()), (e.affectedComponents, e.reconnectExpected));
      ThenWrote(Texts(), BoolCodec(), e.affectedComponents, e.reconnectExpected, s1, s2, State());
      ThenWrote(EnumCodec(0, 4), c, e.requirement, v, old(State()), s1, State());
      WroteMapped(Pair(EnumCodec(0, 4), c), ToEffects, FromEffects, e, old(State()), State());
    }

    /** `write_status`. */
    method WriteStatus(s: Status)
      modifies this
      ensures Wrote(StatusCodec(), s, old(State()), State())
    {
      hide Wrote, Pair, Mapped, Text, EnumCodec;
      Enum(s.code, 0, 8);
      ghost var s1 := State();
      String(s.message);
      ThenWrote(EnumCodec(0, 8), Text(), s.code, s.message, old(State()), s1, State());
      WroteMapped(Pair(EnumCodec(0, 8), Text()), ToStatus, FromStatus, s, old(State()), State());
    }

    /** The parts of a patch response, in order. */
    method WritePatchResponse(m: PatchResponse)
      modifies this
      ensures Wrote(PatchResponseCodec(), m, old(State()), State())
    {
      hide Wrote, Pair, Mapped, StatusCodec, SnapshotCodec, Optional, FieldErrors, EffectsCodec;
      WriteStatus(m.status);
      ghost var s1 := State();
      WriteSnapshot(m.snapshot);
      ghost var s2 := State();
      WriteCandidate(m.candidate);
      ghost var s3 := State();
      WriteFieldErrors(m.errors);
      ghost var s4 := State();
      WriteEffects(m.effects);
      ghost var s5 := State();
      ghost var (c3, v3) := (Pair(FieldErrors(), EffectsCodec()), (m.errors, m.effects));
      ghost var (c2, v2) := (Pair(Optional(SnapshotCodec()), c3), (m.candidate, v3));
      ThenWrote(FieldErrors(), EffectsCodec(), m.errors, m.effects, s3, s4, s5);
      ThenWrote(Optional(SnapshotCodec()), c3, m.candidate, v3, s2, s3, s5);
      ThenWrote(SnapshotCodec(), c2, m.snapshot, v2, s1, s2, s5);
      ThenWrote(StatusCodec(), Pair(SnapshotCodec(), c2), m.status, (m.snapshot, v2), old(State()),
                s1, s5);
      WroteMapped(PatchResponseFieldsCodec(), ToPatchResponse, FromPatchResponse, m, old(State()),
                  s5);
    }
  }

  /** `encode_payload` of a patch response. */
  method EncodePatchResponse(m: PatchResponse) returns (bytes: Bytes)
    ensures bytes == Build(PatchResponseCodec(), m)
  {
    hide PatchResponseCodec;
    var writer := new BufferWriter();
    writer.WritePatchResponse(m);
    assert [] + PatchResponseCodec().put(m) == PatchResponseCodec().put(m);
    return if writer.valid then writer.data else [];
  }

  // Reading

  /** The reader of a snapshot, field by field. */
  function TakeSnapshot(b: Bytes): Option<(Snapshot, Bytes)>
  {
    var (resourceId, b1) :- TakeText(b);
    var (revision, b2) :- TakeText(b1);
    var (appliedRevision, b3) :- TakeText(b2);
    var (variantId, b4) :- TakeText(b3);
    var (activeVariantId, b5) :- TakeText(b4);
    var (values, b6) :- FieldValues().take(b5);
    var (paths, rest) :- Texts().take(b6);
    Some((Snapshot(resourceId, revision, appliedRevision, variantId, activeVariantId, values,
                   paths), rest))
  }

  lemma SnapshotTakes(b: Bytes)
    ensures SnapshotCodec().take(b) == TakeSnapshot(b)
  {
    hide Pair, Mapped, FieldValues, Texts, TakeText;
    MappedTakes(SnapshotFieldsCodec(), ToSnapshot, FromSnapshot, b);
    var c5 := Pair(FieldValues(), Texts());
    var c4 := Pair(Text(), c5);
    var c3 := Pair(Text(), c4);
    var c2 := Pair(Text(), c3);
    PairTakes(Text(), Pair(Text(), c2), b);
    if TakeText(b).Some? {
      var b1 := TakeText(b).value.1;
      PairTakes(Text(), c2, b1);
      if TakeText(b1).Some? {
        var b2 := TakeText(b1).value.1;
        PairTakes(Text(), c3, b2);
        if TakeText(b2).Some? {
          var b3 := TakeText(b2).value.1;
          PairTakes(Text(), c4, b3);
          if TakeText(b3).Some? {
            var b4 := TakeText(b3).value.1;
            PairTakes(Text(), c5, b4);
            if TakeText(b4).Some? {
              PairTakes(FieldValues(), Texts(), TakeText(b4).value.1);
            }
          }
        }
      }
    }
  }

  function TakeFieldValue(b: Bytes): Option<(FieldValue, Bytes)>
  {
    var (path, b1) :- TakeText(b);
    var (value, rest) :- TakeValue(b1);
    Some((FieldValue(path, value), rest))
  }

  function TakeFieldError(b: Bytes): Option<(FieldError, Bytes)>
  {
    var (path, b1) :- TakeText(b);
    var (code, b2) :- TakeText(b1);
    var (message, rest) :- TakeText(b2);
    Some((FieldError(path, code, message), rest))
  }

  function TakeEnum(b: Bytes, greatest: byte): Option<(byte, Bytes)>
  {
    var (v, rest) :- TakeU8(b);
    if v <= greatest then Some((v, rest)) else None
  }

  function TakeEffects(b: Bytes): Option<(Effects, Bytes)>
  {
    var (requirement, b1) :- TakeEnum(b, 4);
    var (components, b2) :- Texts().take(b1);
    var (reconnect, rest) :- BoolTake(b2);
    Some((Effects(requirement, components, reconnect), rest))
  }

  function TakeStatus(b: Bytes): Option<(Status, Bytes)>
  {
    var (code, b1) :- TakeEnum(b, 8);
    var (message, rest) :- TakeText(b1);
    Some((Status(code, message), rest))
  }

  lemma EnumTakes(b: Bytes, greatest: byte)
    ensures EnumCodec(0, greatest).take(b) == TakeEnum(b, greatest)
  {
  }

  lemma RecordTakes(b: Bytes)
    ensures FieldValueCodec().take(b) == TakeFieldValue(b)
    ensures StatusCodec().take(b) == TakeStatus(b)
  {
    hide Pair, Mapped, TakeText, TakeValue, EnumCodec, TakeEnum;
    MappedTakes(Pair(Text(), ValueCodec()), ToFieldValue, FromFieldValue, b);
    PairTakes(Text(), ValueCodec(), b);
    MappedTakes(Pair(EnumCodec(0, 8), Text()), ToStatus, FromStatus, b);
    PairTakes(EnumCodec(0, 8), Text(), b);
    EnumTakes(b, 8);
  }

  lemma ErrorTakes(b: Bytes)
    ensures FieldErrorCodec().take(b) == TakeFieldError(b)
  {
    hide Pair, Mapped, TakeText;
    MappedTakes(ThreeTextsCodec(), ToFieldError, FromFieldError, b);
    PairTakes(Text(), Pair(Text(), Text()), b);
    if TakeText(b).Some? {
      PairTakes(Text(), Text(), TakeText(b).value.1);
    }
  }

  lemma EffectsTakes(b: Bytes)
    ensures EffectsCodec().take(b) == TakeEffects(b)
  {
    hide Pair, Mapped, Texts, EnumCodec, TakeEnum, BoolTake;
    MappedTakes(Pair(EnumCodec(0, 4), Pair(Texts(), BoolCodec())), ToEffects, FromEffects, b);
    PairTakes(EnumCodec(0, 4), Pair(Texts(), BoolCodec()), b);
    EnumTakes(b, 4);
    if TakeEnum(b, 4).Some? {
      PairTakes(Texts(), BoolCodec(), TakeEnum(b, 4).value.1);
    }
  }

  function TakePatchResponse(b: Bytes): Option<(PatchResponse, Bytes)>
  {
    var (status, b1) :- TakeStatus(b);
    var (snapshot, b2) :- TakeSnapshot(b1);
    var (candidate, b3) :- OptionalTake(SnapshotCodec(), b2);
    var (errors, b4) :- FieldErrors().take(b3);
    var (effects, rest) :- TakeEffects(b4);
    Some((PatchResponse(status, snapshot, candidate, errors, effects), rest))
  }

  lemma PatchResponseTakes(b: Bytes)
    ensures PatchResponseCodec().take(b) == TakePatchResponse(b)
  {
    hide Pair, Mapped, StatusCodec, TakeStatus, SnapshotCodec, TakeSnapshot, FieldErrors,
      EffectsCodec, TakeEffects, OptionalTake;
    MappedTakes(PatchResponseFieldsCodec(), ToPatchResponse, FromPatchResponse, b);
    var c3 := Pair(FieldErrors(), EffectsCodec());
    var c2 := Pair(Optional(SnapshotCodec()), c3);
    PairTakes(StatusCodec(), Pair(SnapshotCodec(), c2), b);
    RecordTakes(b);
    if TakeStatus(b).Some? {
      var b1 := TakeStatus(b).value.1;
      PairTakes(SnapshotCodec(), c2, b1);
      SnapshotTakes(b1);
      if TakeSnapshot(b1).Some? {
        var b2 := TakeSnapshot(b1).value.1;
        PairTakes(Optional(SnapshotCodec()), c3, b2);
        if OptionalTake(SnapshotCodec(), b2).Some? {
          var b3 := OptionalTake(SnapshotCodec(), b2).value.1;
          PairTakes(FieldErrors(), EffectsCodec(), b3);
          if FieldErrors().take(b3).Some? {
            EffectsTakes(FieldErrors().take(b3).value.1);
          }
        }
      }
    }
  }

  /** What a list reads as once some of its elements are in `read` and `rest` is left. */
  ghost predicate Reading<T>(take: Bytes -> Option<(T, Bytes)>, left: nat, read: seq<T>,
                             rest: Bytes, whole: Option<(seq<T>, Bytes)>)
  {
    whole == Prepended(read, TakeMany(rest, left, take))
  }

  lemma ReadingBegins<T(!new)>(take: Bytes -> Option<(T, Bytes)>, count: nat, rest: Bytes)
    ensures Reading(take, count, [], rest, TakeMany(rest, count, take))
  {
    var whole := TakeMany(rest, count, take);
    assert whole.Some? ==> [] + whole.value.0 == whole.value.0;
  }

  lemma ReadingGoesOn<T(!new)>(take: Bytes -> Option<(T, Bytes)>, left: nat, read: seq<T>,
                               rest: Bytes, whole: Option<(seq<T>, Bytes)>)
    requires left > 0 && Reading(take, left, read, rest, whole)
    ensures take(rest).None? ==> whole.None?
    ensures take(rest).Some? ==>
      Reading(take, left - 1, read + [take(rest).value.0], take(rest).value.1, whole)
  {
    ReadOneMore(rest, left, take, read);
  }

  lemma ReadingEnds<T(!new)>(take: Bytes -> Option<(T, Bytes)>, read: seq<T>, rest: Bytes,
                             whole: Option<(seq<T>, Bytes)>)
    requires Reading(take, 0, read, rest, whole)
    ensures whole == Some((read, rest))
  {
    assert read + [] == read;
  }

  lemma VectorTakes<T(!new)>(c: Codec<T>, b: Bytes)
    ensures Vector(c, MAX_CONFIG_ITEMS).take(b)
         == if TakeU16(b).None? || TakeU16(b).value.0 > 256 then None
            else TakeMany(TakeU16(b).value.1, TakeU16(b).value.0, c.take)
  {
    hide TakeU16;
  }

  class BufferReader {
    const data: Bytes
    var cursor: nat

    constructor (bytes: Bytes)
      ensures Inside() && Rest() == bytes && data == bytes
    {
      data, cursor := bytes, 0;
    }

    ghost predicate Inside()
      reads this
    {
      cursor <= |data|
    }

    ghost function Rest(): Bytes
      requires Inside()
      reads this
    {
      data[cursor..]
    }

    method Byte() returns (v: Option<byte>)
      requires Inside()
      modifies this
      ensures Inside() && Took(TakeU8(old(Rest())), v, Rest())
    {
      if cursor + 1 > |data| {
        return None;
      }
      v := Some(data[cursor]);
      cursor := cursor + 1;
    }

    method Enum(greatest: byte) returns (v: Option<byte>)
      requires Inside()
      modifies this
      ensures Inside() && Took(TakeEnum(old(Rest()), greatest), v, Rest())
    {
      v := Byte();
      if v.Some? && v.value > greatest {
        return None;
      }
    }

    /** `read_bool`. */
    method Bool() returns (v: Option<bool>)
      requires Inside()
      modifies this
      ensures Inside() && Took(BoolTake(old(Rest())), v, Rest())
    {
      var raw := Byte();
      if raw.None? || raw.value > 1 {
        return None;
      }
      return Some(raw.value != 0);
    }

    /** `read_u16` and `read_u64`. */
    method Number(width: nat) returns (v: Option<nat>)
      requires Inside()
      modifies this
      ensures Inside() && Took(TakeLe(old(Rest()), width), v, Rest())
    {
      if cursor + width > |data| {
        return None;
      }
      var n := ReadLe(data, cursor, width);
      assert Rest()[..width] == data[cursor..cursor + width];
      assert Rest()[width..] == data[cursor + width..];
      cursor := cursor + width;
      return Some(n);
    }

    method U16() returns (v: Option<u16>)
      requires Inside()
      modifies this
      ensures Inside() && Took(TakeU16(old(Rest())), v, Rest())
    {
      hide TakeLe;
      PowersOf256();
      var n := Number(2);
      if n.None? {
        return None;
      }
      return Some(n.value);
    }

    method U64() returns (v: Option<u64>)
      requires Inside()
      modifies this
      ensures Inside() && Took(TakeU64(old(Rest())), v, Rest())
    {
      hide TakeLe;
      PowersOf256();
      var n := Number(8);
      if n.None? {
        return None;
      }
      return Some(n.value);
    }

    /** `read_string`. */
    method String() returns (v: Option<Bytes>)
      requires Inside()
      modifies this
      ensures Inside() && Took(TakeText(old(Rest())), v, Rest())
    {
      hide TakeU16;
      var size := U16();
      if size.None? || cursor + size.value > |data| {
        return None;
      }
      var end := cursor + size.value;
      assert Rest()[..size.value] == data[cursor..end];
      assert Rest()[size.value..] == data[end..];
      v := Some(data[cursor..end]);
      cursor := end;
    }

    /** The count in front of a list. */
    method Count() returns (count: Option<u16>)
      requires Inside()
      modifies this
      ensures Inside()
      ensures count.Some? ==> Took(TakeU16(old(Rest())), count, Rest()) && count.value <= 256
      ensures count.None? ==>
        TakeU16(old(Rest())).None? || TakeU16(old(Rest())).value.0 > 256
    {
      hide TakeU16;
      count := U16();
      if count.Some? && count.value > 256 {
        return None;
      }
    }

    /** `read_strings`. */
    method Strings() returns (values: Option<seq<Bytes>>)
      requires Inside()
      modifies this
      ensures Inside() && Took(Texts().take(old(Rest())), values, Rest())
    {
      hide TakeText, TakeU16, TakeMany, Reading, Vector;
      VectorTakes(Text(), Rest());
      var count := Count();
      if count.None? {
        return None;
      }
      var read: seq<Bytes> := [];
      ghost var take := Text().take;
      ghost var whole := TakeMany(Rest(), count.value, take);
      ReadingBegins(take, count.value, Rest());
      for i := 0 to count.value
        invariant Inside() && Reading(take, count.value - i, read, Rest(), whole)
      {
        ReadingGoesOn(take, count.value - i, read, Rest(), whole);
        var text := String();
        if text.None? {
          return None;
        }
        read := read + [text.value];
      }
      ReadingEnds(take, read, Rest(), whole);
      return Some(read);
    }

    method FiniteDouble() returns (bits: Option<u64>)
      requires Inside()
      modifies this
      ensures Inside() && Took(DoubleItem().take(old(Rest())), bits, Rest())
    {
      hide Finite, TakeU64;
      bits := U64();
      if bits.Some? && !Finite(bits.value) {
        return None;
      }
    }

    method DoubleList() returns (values: Option<seq<u64>>)
      requires Inside()
      modifies this
      ensures Inside() && Took(Doubles().take(old(Rest())), values, Rest())
    {
      hide DoubleItem, TakeU16, TakeMany, Reading, Vector;
      VectorTakes(DoubleItem(), Rest());
      var count := Count();
      if count.None? {
        return None;
      }
      var read: seq<u64> := [];
      ghost var take := DoubleItem().take;
      ghost var whole := TakeMany(Rest(), count.value, take);
      ReadingBegins(take, count.value, Rest());
      for i := 0 to count.value
        invariant Inside() && Reading(take, count.value - i, read, Rest(), whole)
      {
        ReadingGoesOn(take, count.value - i, read, Rest(), whole);
        var bits := FiniteDouble();
        if bits.None? {
          return None;
        }
        read := read + [bits.value];
      }
      ReadingEnds(take, read, Rest(), whole);
      return Some(read);
    }

    /** `read_value`. */
    method ReadValue() returns (value: Option<Value>)
      requires Inside()
      modifies this
      ensures Inside() && Took(TakeValue(old(Rest())), value, Rest())
    {
      hide Texts, Doubles, DoubleItem, TakeU64, TakeText, BoolTake;
      var tag := Byte();
      if tag.None? {
        return None;
      }
      if tag.value == 1 {
        var v := Bool();
        return if v.None? then None else Some(BoolValue(v.value));
      }
      if tag.value == 2 {
        var v := U64();
        return if v.None? then None else Some(Int64Value(Signed(v.value)));
      }
      if tag.value == 3 {
        var v := FiniteDouble();
        return if v.None? then None else Some(DoubleValue(v.value));
      }
      if tag.value == 4 {
        var v := String();
        return if v.None? then None else Some(StringValue(v.value));
      }
      if tag.value == 5 {
        var v := Strings();
        return if v.None? then None else Some(StringListValue(v.value));
      }
      if tag.value == 6 {
        var v := DoubleList();
        return if v.None? then None else Some(DoubleListValue(v.value));
      }
      return if tag.value == 7 then Some(Unset) else None;
    }

    /** `read_field_value`. */
    method ReadFieldValue() returns (value: Option<FieldValue>)
      requires Inside()
      modifies this
      ensures Inside() && Took(FieldValueCodec().take(old(Rest())), value, Rest())
    {
      hide TakeText, TakeValue, FieldValueCodec, StatusCodec;
      RecordTakes(Rest());
      var path := String();
      if path.None? {
        return None;
      }
      var v := ReadValue();
      return if v.None? then None else Some(FieldValue(path.value, v.value));
    }

    method ReadFieldValues() returns (values: Option<seq<FieldValue>>)
      requires Inside()
      modifies this
      ensures Inside() && Took(FieldValues().take(old(Rest())), values, Rest())
    {
      hide FieldValueCodec, TakeU16, TakeMany, Reading, Vector;
      VectorTakes(FieldValueCodec(), Rest());
      var count := Count();
      if count.None? {
        return None;
      }
      var read: seq<FieldValue> := [];
      ghost var take := FieldValueCodec().take;
      ghost var whole := TakeMany(Rest(), count.value, take);
      ReadingBegins(take, count.value, Rest());
      for i := 0 to count.value
        invariant Inside() && Reading(take, count.value - i, read, Rest(), whole)
      {
        ReadingGoesOn(take, count.value - i, read, Rest(), whole);
        var v := ReadFieldValue();
        if v.None? {
          return None;
        }
        read := read + [v.value];
      }
      ReadingEnds(take, read, Rest(), whole);
      return Some(read);
    }

    /** `read_snapshot`. */
    method ReadSnapshot() returns (value: Option<Snapshot>)
      requires Inside()
      modifies this
      ensures Inside() && Took(TakeSnapshot(old(Rest())), value, Rest())
    {
      hide TakeText, FieldValues, Texts;
      var resourceId := String();
      if resourceId.None? {
        return None;
      }
      var revision := String();
      if revision.None? {
        return None;
      }
      var appliedRevision := String();
      if appliedRevision.None? {
        return None;
      }
      var variantId := String();
      if variantId.None? {
        return None;
      }
      var activeVariantId := String();
      if activeVariantId.None? {
        return None;
      }
      var values := ReadFieldValues();
      if values.None? {
        return None;
      }
      var paths := Strings();
      if paths.None? {
        return None;
      }
      return Some(Snapshot(resourceId.value, revision.value, appliedRevision.value,
                           variantId.value, activeVariantId.value, values.value, paths.value));
    }

    method ReadCandidate() returns (value: Option<Option<Snapshot>>)
      requires Inside()
      modifies this
      ensures Inside() && Took(OptionalTake(SnapshotCodec(), old(Rest())), value, Rest())
    {
      hide SnapshotCodec, TakeSnapshot;
      var present := Bool();
      if present.None? {
        return None;
      }
      if !present.value {
        return Some(None);
      }
      SnapshotTakes(Rest());
      var v := ReadSnapshot();
      return if v.None? then None else Some(Some(v.value));
    }

    /** `read_field_error`. */
    method ReadFieldError() returns (value: Option<FieldError>)
      requires Inside()
      modifies this
      ensures Inside() && Took(FieldErrorCodec().take(old(Rest())), value, Rest())
    {
      hide TakeText, FieldErrorCodec;
      ErrorTakes(Rest());
      var path := String();
      if path.None? {
        return None;
      }
      var code := String();
      if code.None? {
        return None;
      }
      var message := String();
      return if message.None? then None
             else Some(FieldError(path.value, code.value, message.value));
    }

    method ReadFieldErrors() returns (values: Option<seq<FieldError>>)
      requires Inside()
      modifies this
      ensures Inside() && Took(FieldErrors().take(old(Rest())), values, Rest())
    {
      hide FieldErrorCodec, TakeU16, TakeMany, Reading, Vector;
      VectorTakes(FieldErrorCodec(), Rest());
      var count := Count();
      if count.None? {
        return None;
      }
      var read: seq<FieldError> := [];
      ghost var take := FieldErrorCodec().take;
      ghost var whole := TakeMany(Rest(), count.value, take);
      ReadingBegins(take, count.value, Rest());
      for i := 0 to count.value
        invariant Inside() && Reading(take, count.value - i, read, Rest(), whole)
      {
        ReadingGoesOn(take, count.value - i, read, Rest(), whole);
        var e := ReadFieldError();
        if e.None? {
          return None;
        }
        read := read + [e.value];
      }
      ReadingEnds(take, read, Rest(), whole);
      return Some(read);
    }

    /** `read_effects`. */
    method ReadEffects() returns (value: Option<Effects>)
      requires Inside()
      modifies this
      ensures Inside() && Took(TakeEffects(old(Rest())), value, Rest())
    {
      hide TakeEnum, Texts, BoolTake;
      var requirement := Enum(4);
      if requirement.None? {
        return None;
      }
      var components := Strings();
      if components.None? {
        return None;
      }
      var reconnect := Bool();
      return if reconnect.None? then None
             else Some(Effects(requirement.value, components.value, reconnect.value));
    }

    /** `read_status`. */
    method ReadStatus() returns (value: Option<Status>)
      requires Inside()
      modifies this
      ensures Inside() && Took(TakeStatus(old(Rest())), value, Rest())
    {
      hide TakeEnum, TakeText;
      var code := Enum(8);
      if code.None? {
        return None;
      }
      var message := String();
      return if message.None? then None else Some(Status(code.value, message.value));
    }
  }

  /** `decode_payload` of a patch response. */
  method DecodePatchResponse(bytes: Bytes) returns (m: Option<PatchResponse>)
    ensures m == Parse(PatchResponseCodec(), bytes)
  {
    hide PatchResponseCodec, TakeStatus, TakeSnapshot, OptionalTake, FieldErrors, TakeEffects;
    PatchResponseTakes(bytes);
    var reader := new BufferReader(bytes);
    var status := reader.ReadStatus();
    if status.None? {
      return None;
    }
    var snapshot := reader.ReadSnapshot();
    if snapshot.None? {
      return None;
    }
    var candidate := reader.ReadCandidate();
    if candidate.None? {
      return None;
    }
    var errors := reader.ReadFieldErrors();
    if errors.None? {
      return None;
    }
    var effects := reader.ReadEffects();
    if effects.None? || reader.cursor != |bytes| {
      return None;
    }
    return Some(PatchResponse(status.value, snapshot.value, candidate.value, errors.value,
                              effects.value));
  }
}
