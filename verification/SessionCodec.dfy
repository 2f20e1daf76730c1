/**
 The payloads of session messages: one text, or a list of profile descriptors. The methods are
 the program's loops over an output buffer and a cursor.
 */
module SessionCodec {
  import opened ByteLayout
  import opened Readers
  import opened Wire

  datatype ProfileDescriptor = ProfileDescriptor(
    profileId: Bytes,
    major: u16,
    minor: u16,
    schemaDigest: Bytes)

  // One text

  function EncodeText(value: Bytes): Bytes
  {
    if |value| > 0xFFFF then [] else PutText(value)
  }

  function DecodeText(payload: Bytes): Option<Bytes>
  {
    match TakeText(payload)
    case None => None
    case Some((v, rest)) => if rest == [] then Some(v) else None
  }

  /** A text is read back if and only if its length fits in the prefix. */
  lemma TextRoundTrip(value: Bytes)
    ensures DecodeText(EncodeText(value)) == Some(value) <==> |value| <= 0xFFFF
    ensures |value| > 0xFFFF ==> DecodeText(EncodeText(value)).None?
  {
    if |value| <= 0xFFFF {
      TakePutText(value, []);
      assert PutText(value) + [] == PutText(value);
    }
  }

  /** Every accepted payload is the printed form of the text it holds. */
  lemma TextCanonical(payload: Bytes)
    requires DecodeText(payload).Some?
    ensures EncodeText(DecodeText(payload).value) == payload
  {
    PutTakeText(payload);
  }

  // Profile lists

  function PutProfile(p: ProfileDescriptor): Bytes
  {
    PutText(p.profileId) + (Le(p.major, 2) + (Le(p.minor, 2) + PutText(p.schemaDigest)))
  }

  function TakeProfile(b: Bytes): Option<(ProfileDescriptor, Bytes)>
  {
    match TakeText(b)
    case None => None
    case Some((id, b1)) =>
      match TakeU16(b1)
      case None => None
      case Some((major, b2)) =>
        match TakeU16(b2)
        case None => None
        case Some((minor, b3)) =>
          match TakeText(b3)
          case None => None
          case Some((digest, rest)) =>
            if ValidProfileId(id) && major > 0
            then Some((ProfileDescriptor(id, major, minor, digest), rest))
            else None
  }

  /** What `encode_profile_list` asks of each profile. */
  predicate Printable(p: ProfileDescriptor)
  {
    ValidProfileId(p.profileId) && |p.schemaDigest| <= 0xFFFF
  }

  predicate AllPrintable(profiles: seq<ProfileDescriptor>)
  {
    forall i :: 0 <= i < |profiles| ==> Printable(profiles[i])
  }

  function EncodeProfileList(profiles: seq<ProfileDescriptor>): Bytes
  {
    if |profiles| > 0xFFFF || !AllPrintable(profiles) then []
    else Le(|profiles|, 2) + PutAll(profiles, PutProfile)
  }

  function DecodeProfileList(payload: Bytes): Option<seq<ProfileDescriptor>>
  {
    match TakeU16(payload)
    case None => None
    case Some((count, rest)) =>
      match TakeMany(rest, count, TakeProfile)
      case None => None
      case Some((profiles, left)) => if left == [] then Some(profiles) else None
  }

  lemma TakePutProfile(p: ProfileDescriptor, rest: Bytes)
    requires Printable(p)
    ensures p.major > 0 ==> TakeProfile(PutProfile(p) + rest) == Some((p, rest))
    ensures p.major == 0 ==> TakeProfile(PutProfile(p) + rest).None?
  {
    hide TakeLe, TakeText;
    var b4 := PutText(p.schemaDigest) + rest;
    var b3 := Le(p.minor, 2) + b4;
    var b2 := Le(p.major, 2) + b3;
    assert PutProfile(p) + rest == PutText(p.profileId) + b2;
    TakePutText(p.profileId, b2);
    TakeLePut(p.major, 2, b3);
    TakeLePut(p.minor, 2, b4);
    TakePutText(p.schemaDigest, rest);
  }

  lemma PutTakeProfile(b: Bytes)
    ensures PrintsBack(b, PutProfile, TakeProfile)
    ensures TakeProfile(b).Some? ==>
      Printable(TakeProfile(b).value.0) && TakeProfile(b).value.0.major > 0
  {
    hide TakeLe, PutText;
    if TakeProfile(b).Some? {
      var (id, b1) := TakeText(b).value;
      var (major, b2) := TakeU16(b1).value;
      var (minor, b3) := TakeU16(b2).value;
      var (digest, rest) := TakeText(b3).value;
      PutTakeText(b);
      PutTakeLe(b1, 2);
      PutTakeLe(b2, 2);
      PutTakeText(b3);
      hide TakeText, Le, ValidProfileId;
      var p := PutText(digest);
      assert PutText(id) + (Le(major, 2) + (Le(minor, 2) + p)) + rest
          == PutText(id) + (Le(major, 2) + (Le(minor, 2) + (p + rest)));
    }
  }

  predicate Decodable(p: ProfileDescriptor)
  {
    Printable(p) && p.major > 0
  }

  /**
   A profile list is read back if and only if it was printable and no major version is zero:
   the printer does not check the major version, the reader does.
   */
  lemma ProfileListRoundTrip(profiles: seq<ProfileDescriptor>)
    ensures DecodeProfileList(EncodeProfileList(profiles)) == Some(profiles)
       <==> |profiles| <= 0xFFFF && forall i :: 0 <= i < |profiles| ==> Decodable(profiles[i])
  {
    hide TakeProfile, PutProfile, TakeLe;
    var payload := EncodeProfileList(profiles);
    if |profiles| <= 0xFFFF && AllPrintable(profiles) {
      var body := PutAll(profiles, PutProfile);
      TakeLePut(|profiles|, 2, body);
      if forall i :: 0 <= i < |profiles| ==> Decodable(profiles[i]) {
        forall v, rest: Bytes | v in profiles
          ensures TakeProfile(PutProfile(v) + rest) == Some((v, rest))
        {
          TakePutProfile(v, rest);
        }
        TakePutAll(profiles, PutProfile, TakeProfile, []);
        assert body + [] == body;
      } else if DecodeProfileList(payload) == Some(profiles) {
        DecodedDecodable(payload);
      }
    } else {
      assert payload == [];
      assert DecodeProfileList(payload).None? by {
        assert TakeU16([]).None? by { NoNumber(); }
      }
    }
  }

  lemma NoNumber()
    ensures TakeU16([]).None?
  {
  }

  lemma DecodedDecodable(payload: Bytes)
    requires DecodeProfileList(payload).Some?
    ensures |DecodeProfileList(payload).value| <= 0xFFFF
    ensures forall p :: p in DecodeProfileList(payload).value ==> Decodable(p)
  {
    hide TakeProfile, TakeLe, Decodable;
    forall c: Bytes | TakeProfile(c).Some?
      ensures Decodable(TakeProfile(c).value.0)
    {
      PutTakeProfile(c);
      assert Decodable(TakeProfile(c).value.0) by { DecodableMeans(TakeProfile(c).value.0); }
    }
    var (count, rest) := TakeU16(payload).value;
    TakenAll(rest, count, TakeProfile, Decodable);
  }

  lemma DecodableMeans(p: ProfileDescriptor)
    ensures Decodable(p) <==> Printable(p) && p.major > 0
  {
  }

  /** Every accepted list is the printed form of what was read. */
  lemma ProfileListCanonical(payload: Bytes)
    requires DecodeProfileList(payload).Some?
    ensures EncodeProfileList(DecodeProfileList(payload).value) == payload
  {
    hide TakeProfile, PutProfile, TakeLe, Le, Printable;
    DecodedDecodable(payload);
    var (count, rest) := TakeU16(payload).value;
    forall c: Bytes
      ensures PrintsBack(c, PutProfile, TakeProfile)
    {
      PutTakeProfile(c);
    }
    PutTakeMany(rest, count, PutProfile, TakeProfile);
    PutTakeLe(payload, 2);
    var profiles := DecodeProfileList(payload).value;
    assert forall i :: 0 <= i < |profiles| ==> profiles[i] in profiles;
    var body := PutAll(profiles, PutProfile);
    assert body + [] == body;
  }

  // The loops

  /** `take_u16`: the value, and where the cursor is afterwards. */
  method ReadU16(input: Bytes, cursor: nat) returns (value: Option<u16>, next: nat)
    requires cursor <= |input|
    ensures value.None? <==> TakeU16(input[cursor..]).None?
    ensures next <= |input|
    ensures value.Some? ==> TakeU16(input[cursor..]) == Some((value.value, input[next..]))
  {
    if cursor + 2 > |input| {
      return None, cursor;
    }
    var v := ReadLe(input, cursor, 2);
    assert input[cursor..][..2] == input[cursor..cursor + 2];
    assert input[cursor..][2..] == input[cursor + 2..];
    return Some(v), cursor + 2;
  }

  /** `take_text`. */
  method ReadText(input: Bytes, cursor: nat) returns (value: Option<Bytes>, next: nat)
    requires cursor <= |input|
    ensures value.None? <==> TakeText(input[cursor..]).None?
    ensures next <= |input|
    ensures value.Some? ==> TakeText(input[cursor..]) == Some((value.value, input[next..]))
  {
    hide TakeLe;
    var length, start := ReadU16(input, cursor);
    if length.None? || start + length.value > |input| {
      return None, start;
    }
    var end := start + length.value;
    assert input[start..][..length.value] == input[start..end];
    assert input[start..][length.value..] == input[end..];
    return Some(input[start..end]), end;
  }

  /** `decode_text`. */
  method DecodeTextPayload(payload: Bytes) returns (value: Option<Bytes>)
    ensures value == DecodeText(payload)
  {
    hide TakeText;
    assert payload[0..] == payload;
    var text, cursor := ReadText(payload, 0);
    if text.None? || cursor != |payload| {
      return None;
    }
    return text;
  }

  /** The body of the loop of `decode_profile_list`. */
  method ReadProfile(input: Bytes, cursor: nat)
    returns (profile: Option<ProfileDescriptor>, next: nat)
    requires cursor <= |input|
    ensures profile.None? <==> TakeProfile(input[cursor..]).None?
    ensures next <= |input|
    ensures profile.Some? ==>
      TakeProfile(input[cursor..]) == Some((profile.value, input[next..]))
  {
    hide TakeText, TakeU16, ValidProfileId;
    var id, c1 := ReadText(input, cursor);
    if id.None? {
      return None, c1;
    }
    var major, c2 := ReadU16(input, c1);
    if major.None? {
      return None, c2;
    }
    var minor, c3 := ReadU16(input, c2);
    if minor.None? {
      return None, c3;
    }
    var digest, c4 := ReadText(input, c3);
    if digest.None? || !ValidProfileId(id.value) || major.value == 0 {
      return None, c4;
    }
    return Some(ProfileDescriptor(id.value, major.value, minor.value, digest.value)), c4;
  }

  /** `decode_profile_list`. */
  method DecodeProfiles(payload: Bytes) returns (profiles: Option<seq<ProfileDescriptor>>)
    ensures profiles == DecodeProfileList(payload)
  {
    hide TakeProfile, TakeU16;
    assert payload[0..] == payload;
    var count, start := ReadU16(payload, 0);
    if count.None? {
      return None;
    }
    var cursor := start;
    var parsed: seq<ProfileDescriptor> := [];
    ghost var whole := TakeMany(payload[start..], count.value, TakeProfile);
    assert whole.Some? ==> [] + whole.value.0 == whole.value.0;
    for i := 0 to count.value
      invariant 0 <= cursor <= |payload|
      invariant whole
             == Prepended(parsed, TakeMany(payload[cursor..], count.value - i, TakeProfile))
    {
      ReadOneMore(payload[cursor..], count.value - i, TakeProfile, parsed);
      var profile, next := ReadProfile(payload, cursor);
      if profile.None? {
        return None;
      }
      parsed := parsed + [profile.value];
      cursor := next;
    }
    assert parsed + [] == parsed;
    if cursor != |payload| {
      return None;
    }
    return Some(parsed);
  }

  /** `encode_profile_list`. */
  method EncodeProfiles(profiles: seq<ProfileDescriptor>) returns (out: Bytes)
    ensures out == EncodeProfileList(profiles)
  {
    hide ValidProfileId, Le;
    if |profiles| > 0xFFFF {
      return [];
    }
    out := AppendLe([], |profiles|, 2);
    assert profiles[0..] == profiles;
    for i := 0 to |profiles|
      invariant forall j :: 0 <= j < i ==> Printable(profiles[j])
      invariant out + PutAll(profiles[i..], PutProfile)
             == Le(|profiles|, 2) + PutAll(profiles, PutProfile)
    {
      var p := profiles[i];
      if !ValidProfileId(p.profileId) || |p.schemaDigest| > 0xFFFF {
        return [];
      }
      assert profiles[i..][1..] == profiles[i + 1..];
      ghost var tail := PutAll(profiles[i + 1..], PutProfile);
      assert out + (PutProfile(p) + tail) == out + PutProfile(p) + tail;
      out := AppendProfile(out, p);
    }
    assert profiles[|profiles|..] == [];
    assert out + [] == out;
  }

  method AppendProfile(prefix: Bytes, p: ProfileDescriptor) returns (out: Bytes)
    requires Printable(p)
    ensures out == prefix + PutProfile(p)
  {
    hide Le, Printable;
    out := AppendLe(prefix, |p.profileId|, 2);
    out := out + p.profileId;
    out := AppendLe(out, p.major, 2);
    out := AppendLe(out, p.minor, 2);
    out := AppendLe(out, |p.schemaDigest|, 2);
    out := out + p.schemaDigest;
  }
}
