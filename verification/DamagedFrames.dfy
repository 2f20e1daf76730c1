/**
 Streams in which some frames are damaged: a frame that still announces its own length costs
 only itself, and where the length or the magic is lost the receiver finds the next magic.
 */
module DamagedFrames {
  import opened ByteLayout
  import opened Fnv
  import opened Wire
  import opened FixedHeader
  import opened WireCodec
  import opened Corruption
  import opened Receive
  import opened Framing

  /** The frame opens with "YLNK" and its two length fields add up to its own length. */
  predicate Announced(f: Bytes)
  {
    && |f| >= 84 && f[0] == 0x59 && f[1] == 0x4C && f[2] == 0x4E && f[3] == 0x4B
    && U16At(f, 8) >= 80 && U16At(f, 8) + U32At(f, 10) + 4 == |f|
  }

  predicate AllAnnounced(frames: seq<Bytes>)
  {
    forall i :: 0 <= i < |frames| ==> Announced(frames[i])
  }

  /** What the receiver must report of a frame: its envelope, or why it is refused. */
  function ReportOf(f: Bytes): Event
  {
    match Decode(f)
    case Accepted(e, _) => Received(e)
    case Rejected(code, _) => FrameRejected(code)
  }

  function Reported(frames: seq<Bytes>): (r: seq<Event>)
    ensures |r| == |frames|
  {
    seq(|frames|, i requires 0 <= i < |frames| => ReportOf(frames[i]))
  }

  // One frame

  lemma WholeIsAnnounced(f: Bytes)
    requires WholeFrame(f)
    ensures Announced(f) && ReportOf(f) == Received(Decode(f).envelope)
  {
    hide Decode, U16At, U32At;
    Announces(f);
  }

  lemma AcceptedWhole(f: Bytes)
    requires Announced(f) && Decode(f).Accepted?
    ensures Decode(f).consumed == |f|
  {
    hide HasMagic, ParseTexts, KnownEnumerators, AcceptableTexts, EnvelopeOf, FieldLe, ParseTrace,
      ParseLengths, ParseTyping;
    AcceptedParts(f);
  }

  /** A frame that announces itself is taken off the buffer whole, whether or not it decodes. */
  lemma PopAnnouncedFrame(f: Bytes, rest: Bytes, max: nat)
    requires Announced(f) && |f| <= max
    ensures
      PopFrame(f + rest, max)
        == match Decode(f)
           case Accepted(e, _) => Got(e, rest)
           case Rejected(code, _) => Failed(code, rest)
  {
    hide Decode, U16At, U32At;
    var b := f + rest;
    assert b[..|f|] == f && b[|f|..] == rest;
    SameFront(f, b, |f|);
    MagicInFront(b);
    assert b[0..] == b;
    if Decode(f).Accepted? {
      AcceptedWhole(f);
    }
  }

  lemma PopUnfinished(f: Bytes, n: nat, max: nat)
    requires Announced(f) && |f| <= max && n < |f|
    ensures PopFrame(f[..n], max) == Nothing(f[..n])
  {
    hide Decode, U16At, U32At;
    var b := f[..n];
    SameFront(f, b, n);
    if n >= 4 {
      MagicInFront(b);
      assert b[0..] == b;
    }
  }

  // A prefix of a stream, in any cut

  lemma ReportedHead(frames: seq<Bytes>)
    requires frames != []
    ensures Reported(frames) == [ReportOf(frames[0])] + Reported(frames[1..])
  {
    hide Decode;
  }

  lemma {:induction false} DrainPrefix(frames: seq<Bytes>, n: nat, max: nat)
    requires AllAnnounced(frames) && AllWithin(frames, max) && n <= |Concat(frames)|
    ensures
      Drain(Concat(frames)[..n], max)
        == (Reported(frames[..Arrived(frames, n)]), Unfinished(frames, n))
    decreases |frames|
  {
    hide Decode, PopFrame, Announced;
    if frames == [] {
      assert Concat(frames)[..n] == [];
      DrainNothing([], max);
    } else {
      var f, rest := frames[0], frames[1..];
      var s := Concat(frames);
      if n < |f| {
        assert s[..n] == f[..n];
        PopUnfinished(f, n, max);
      } else {
        var m := n - |f|;
        assert s[..n] == f + Concat(rest)[..m];
        assert f != [] by { AnnouncedNonempty(f); }
        PopAnnouncedFrame(f, Concat(rest)[..m], max);
        DrainPrefix(rest, m, max);
        var k := Arrived(rest, m);
        assert frames[..k + 1][1..] == rest[..k];
        ReportedHead(frames[..k + 1]);
      }
    }
  }

  lemma AnnouncedNonempty(f: Bytes)
    requires Announced(f)
    ensures |f| >= 84
  {
  }

  lemma {:induction false} DrainMore(frames: seq<Bytes>, n: nat, m: nat, max: nat)
    requires AllAnnounced(frames) && AllWithin(frames, max) && n <= m <= |Concat(frames)|
    ensures Arrived(frames, n) <= Arrived(frames, m)
    ensures
      Drain(Unfinished(frames, n) + Concat(frames)[n..m], max)
        == (Reported(frames[Arrived(frames, n)..Arrived(frames, m)]), Unfinished(frames, m))
    decreases |frames|
  {
    hide Decode, Drain, Announced;
    var s := Concat(frames);
    if frames == [] || n < |frames[0]| {
      assert s[..n] + s[n..m] == s[..m];
      DrainPrefix(frames, m, max);
      assert frames[0..Arrived(frames, m)] == frames[..Arrived(frames, m)];
    } else {
      var f, rest := frames[0], frames[1..];
      DrainMore(rest, n - |f|, m - |f|, max);
      SliceBehind(f, Concat(rest), n, m);
      var i, j := Arrived(rest, n - |f|), Arrived(rest, m - |f|);
      assert rest[i..j] == frames[i + 1..j + 1];
    }
  }

  lemma ReportedSplit(frames: seq<Bytes>, i: nat, j: nat)
    requires i <= j <= |frames|
    ensures Reported(frames[..i]) + Reported(frames[i..j]) == Reported(frames[..j])
  {
    hide ReportOf;
  }

  lemma ChunkFits(frames: seq<Bytes>, n: nat, m: nat, max: nat)
    requires AllAnnounced(frames) && AllWithin(frames, max - (MAX_CHUNK - 1))
    requires n <= m <= |Concat(frames)| && m - n <= MAX_CHUNK
    ensures |Unfinished(frames, n) + Concat(frames)[n..m]| <= max
  {
    hide U16At, U32At;
    if frames != [] {
      assert Announced(frames[0]) && |frames[0]| <= max - (MAX_CHUNK - 1);
      UnfinishedShort(frames, n, max - (MAX_CHUNK - 1));
    }
  }

  /**
   A stream of frames that announce themselves, in any cut into chunks of at most 8192 bytes and
   with room for one chunk less a byte: the receiver reports every frame that arrived, the good
   ones as envelopes and the damaged ones with their error, each in its place.
   */
  lemma {:induction false} DamagedStream(frames: seq<Bytes>, chunks: seq<Bytes>, max: nat)
    requires AllAnnounced(frames) && AllWithin(frames, max - (MAX_CHUNK - 1))
    requires ChunksWithin(chunks, MAX_CHUNK) && Flatten(chunks) <= Concat(frames)
    ensures
      var n := |Flatten(chunks)|;
      FeedAll(chunks, max)
        == Receiver(Unfinished(frames, n), Reported(frames[..Arrived(frames, n)]), true)
    decreases |chunks|
  {
    hide Drain, AllAnnounced, Reported, Concat, Unfinished;
    var s := Concat(frames);
    if chunks == [] {
      NothingIn(frames);
    } else {
      var init, chunk := chunks[..|chunks| - 1], chunks[|chunks| - 1];
      var n, m := |Flatten(init)|, |Flatten(chunks)|;
      assert Flatten(init) == Flatten(chunks)[..n];
      assert s[..m] == Flatten(chunks) && chunk == s[n..m];
      DamagedStream(frames, init, max);
      ChunkFits(frames, n, m, max);
      DrainMore(frames, n, m, max);
      ReportedSplit(frames, Arrived(frames, n), Arrived(frames, m));
    }
  }

  lemma NothingIn(frames: seq<Bytes>)
    requires AllAnnounced(frames)
    ensures Arrived(frames, 0) == 0 && Unfinished(frames, 0) == [] && Reported(frames[..0]) == []
  {
    if frames != [] {
      AnnouncedNonempty(frames[0]);
    }
  }

  // One changed byte

  /** Header bytes that `decode` stores without looking at them. */
  predicate Unchecked(at: nat)
  {
    at == 6 || at == 7 || at == 16 || at == 17 || 20 <= at < 60 || at == 73 || 76 <= at < 80
  }

  /** A value that is no enumerator, in the byte of the class, the family or the scope. */
  predicate Unnamed(at: nat, x: byte)
  {
    (at == 14 && !(1 <= x <= 4)) || (at == 15 && !(1 <= x <= 9)) || (at == 72 && !(1 <= x <= 4))
  }

  /** The changed header, where the magic, the version and the lengths are left alone. */
  lemma SamePrologue(f: Bytes, at: nat, x: byte)
    requires WholeFrame(f) && at < |f| && (at == 6 || at == 7 || at >= 14)
    requires at != 18 && at != 19
    ensures
      var changed := f[at := x];
      && |changed| == |f| >= 84 && HasMagic(changed)
      && var h, h' := ParseHeader(f), ParseHeader(changed);
      && h'.prologue.major == h.prologue.major && h'.prologue.version == h.prologue.version
      && h'.prologue.schema == h.prologue.schema
      && h'.prologue.headerLen == h.prologue.headerLen
      && h'.prologue.payloadLen == h.prologue.payloadLen
  {
    hide Decode, FieldLe, ParseTrace, ParseLengths, ParseTyping;
    Announces(f);
    UntouchedField(f, 8, 2, at, x);
    UntouchedField(f, 10, 4, at, x);
    UntouchedField(f, 18, 2, at, x);
  }

  lemma DamageReachesWhole(f: Bytes, at: nat, x: byte)
    requires WholeFrame(f) && at < |f| && (at == 6 || at == 7 || at >= 14)
    requires at != 18 && at != 19 && f[at] != x
    ensures
      var changed := f[at := x];
      && |changed| >= 84
      && var h := ParseHeader(changed);
      && h.prologue.headerLen >= FIXED_HEADER_SIZE && TotalLength(h) == |f| == |changed|
      && Decode(changed) == DecodeWhole(changed, h)
      && U32At(changed, |f| - 4) != Checksum(changed[..|f| - 4])
  {
    hide FieldLe, ParseTrace, ParseLengths, ParseTyping, DecodeWhole, Checksum, HasMagic;
    SamePrologue(f, at, x);
    AcceptedParts(f);
    TrailerMismatch(f, at, x);
  }

  lemma SliceIn(a: Bytes, lo: nat, hi: nat, i: nat, j: nat)
    requires lo <= hi <= |a| && i <= j <= hi - lo
    ensures a[lo..hi][i..j] == a[lo + i..lo + j]
  {
    var s, t := a[lo..hi][i..j], a[lo + i..lo + j];
    assert |s| == |t|;
    assert forall k :: 0 <= k < |s| ==> s[k] == t[k];
  }

  /** Reading depends only on the bytes from the cursor up to the limit. */
  lemma {:induction false} ReadUidsWithin(a: Bytes, b: Bytes, cursor: nat, limit: nat,
                                          count: nat)
    requires cursor <= limit <= |a| && limit <= |b|
    requires a[cursor..limit] == b[cursor..limit]
    ensures ReadUids(a, cursor, limit, count) == ReadUids(b, cursor, limit, count)
    decreases count
  {
    hide FieldLe;
    if count > 0 && cursor + 2 <= limit {
      SliceIn(a, cursor, limit, 0, 2);
      SliceIn(b, cursor, limit, 0, 2);
      U16Agree(a, b, cursor);
      var n := U16At(a, cursor);
      if n <= limit - (cursor + 2) {
        var next := cursor + 2 + n;
        SliceIn(a, cursor, limit, 2, 2 + n);
        SliceIn(b, cursor, limit, 2, 2 + n);
        SliceIn(a, cursor, limit, 2 + n, limit - cursor);
        SliceIn(b, cursor, limit, 2 + n, limit - cursor);
        ReadUidsWithin(a, b, next, limit, count - 1);
      }
    }
  }

  lemma TextsBefore(f: Bytes, at: nat, x: byte, l: Lengths, limit: nat)
    requires FIXED_HEADER_SIZE <= limit <= at < |f|
    ensures ParseTexts(f[at := x], l, limit) == ParseTexts(f, l, limit)
  {
    hide ReadUids;
    var changed := f[at := x];
    assert forall c, d :: 0 <= c <= d <= limit ==> changed[c..d] == f[c..d];
    var c := FIXED_HEADER_SIZE + l.endpoint + l.entity;
    if c <= limit {
      ReadUidsWithin(f, changed, c, limit, l.targets);
    }
  }

  /** An unchecked byte, or one behind the header, leaves the checksum to find the damage. */
  lemma OnlyChecksum(f: Bytes, at: nat, x: byte)
    requires WholeFrame(f) && at < |f| && f[at] != x
    requires Unchecked(at) || U16At(f, 8) <= at
    ensures Decode(f[at := x]) == Rejected(ChecksumMismatch, |f|)
  {
    hide FieldLe, ParseTexts, Checksum, HasMagic, EnvelopeOf, Decode;
    Announces(f);
    DamageReachesWhole(f, at, x);
    AcceptedParts(f);
    var changed := f[at := x];
    var h, h' := ParseHeader(f), ParseHeader(changed);
    var limit := h.prologue.headerLen;
    if at < FIXED_HEADER_SIZE {
      TextsKept(f, at, x, h.lengths, limit);
    } else {
      TextsBefore(f, at, x, h.lengths, limit);
    }
    SameChecks(f, at, x);
  }

  /** The parts that `decode` checks are those of the undamaged frame. */
  lemma SameChecks(f: Bytes, at: nat, x: byte)
    requires FIXED_HEADER_SIZE <= |f| && at < |f|
    requires Unchecked(at) || FIXED_HEADER_SIZE <= at
    ensures
      var h, h' := ParseHeader(f), ParseHeader(f[at := x]);
      && h'.lengths == h.lengths && h'.typing.scope == h.typing.scope
      && h'.typing.major == h.typing.major
      && h'.prologue.qos == h.prologue.qos && h'.prologue.family == h.prologue.family
      && h'.prologue.headerLen == h.prologue.headerLen
  {
    hide FieldLe, ParseTrace, ParseLengths;
    if at < FIXED_HEADER_SIZE {
      SameLengths(f, at, x);
    } else {
      LengthsBefore(f, at, x);
    }
    UntouchedField(f, 8, 2, at, x);
    UntouchedField(f, 74, 2, at, x);
  }

  lemma LengthsBefore(f: Bytes, at: nat, x: byte)
    requires FIXED_HEADER_SIZE <= at < |f|
    ensures ParseLengths(f[at := x]) == ParseLengths(f)
  {
    hide FieldLe;
    UntouchedField(f, 60, 2, at, x);
    UntouchedField(f, 62, 2, at, x);
    UntouchedField(f, 64, 2, at, x);
    UntouchedField(f, 66, 2, at, x);
    UntouchedField(f, 68, 2, at, x);
    UntouchedField(f, 70, 2, at, x);
  }

  /**
   What one changed byte is reported as. In the magic it is an invalid header and in the version
   a protocol mismatch, with nothing consumed; behind the header, or in a byte that `decode`
   does not look at, it is a checksum mismatch; a value that is no enumerator is a decode
   error, before the checksum is looked at; anywhere else it is one of the last two. From byte
   14 on the frame still announces its length, and that is what the error consumes.
   */
  lemma DamageReport(f: Bytes, at: nat, x: byte)
    requires WholeFrame(f) && at < |f| && f[at] != x && !(8 <= at < 14)
    ensures
      var d := Decode(f[at := x]);
      && (at < 4 ==> d == Rejected(InvalidHeader, 0))
      && (at == 4 || at == 5 || at == 18 || at == 19 ==> d == Rejected(ProtocolMismatch, 0))
      && (Unchecked(at) || U16At(f, 8) <= at ==> d == Rejected(ChecksumMismatch, |f|))
      && (Unnamed(at, x) ==> d == Rejected(DecodeError, |f|))
      && (4 <= at && at != 4 && at != 5 && at != 18 && at != 19 ==>
            d == Rejected(ChecksumMismatch, |f|) || d == Rejected(DecodeError, |f|))
      && (at >= 14 ==> Announced(f[at := x]))
  {
    hide ParseTexts, AcceptableTexts, Checksum, FieldLe, ParseTrace, ParseLengths, EnvelopeOf;
    Announces(f);
    AcceptedParts(f);
    if Unchecked(at) || U16At(f, 8) <= at {
      OnlyChecksum(f, at, x);
    }
    if at == 18 || at == 19 {
      FieldSubstitution(f, 18, 2, at, x);
    }
    if at == 6 || at == 7 || (at >= 14 && at != 18 && at != 19) {
      DamageReachesWhole(f, at, x);
    }
    if at >= 14 {
      UntouchedField(f, 8, 2, at, x);
      UntouchedField(f, 10, 4, at, x);
    }
  }

  function Damaged(f: Bytes, at: nat, x: byte): Bytes
    requires at < |f|
  {
    f[at := x]
  }

  lemma DamagedReports(frames: seq<Bytes>, k: nat, at: nat, x: byte)
    requires AllWhole(frames) && k < |frames| && 14 <= at < |frames[k]| && frames[k][at] != x
    ensures
      var damaged := frames[k := Damaged(frames[k], at, x)];
      && AllAnnounced(damaged) && |damaged[k]| == |frames[k]|
      && Reported(damaged) == Decoded(frames)[k := ReportOf(Damaged(frames[k], at, x))]
    ensures ReportOf(Damaged(frames[k], at, x)).FrameRejected?
  {
    hide Decode, WholeFrame, Announced;
    var damaged := frames[k := Damaged(frames[k], at, x)];
    DamageReport(frames[k], at, x);
    OneByteRejected(frames[k], at, x);
    forall i | 0 <= i < |frames|
      ensures Announced(damaged[i])
      ensures i != k ==> ReportOf(damaged[i]) == Decoded(frames)[i]
    {
      if i != k {
        WholeIsAnnounced(frames[i]);
      }
    }
  }

  /**
   One damaged frame costs only itself. In a stream of frames of which one has one byte changed
   from byte 14 on, delivered in any cut with room for one chunk less a byte, every other frame
   is reported as it was sent and the damaged one as an error, in its place.
   */
  lemma DamageCostsOneFrame(frames: seq<Bytes>, k: nat, at: nat, x: byte, chunks: seq<Bytes>,
                            max: nat)
    requires AllWhole(frames) && AllWithin(frames, max - (MAX_CHUNK - 1)) && k < |frames|
    requires 14 <= at < |frames[k]| && frames[k][at] != x
    requires
      var damaged := frames[k := Damaged(frames[k], at, x)];
      ChunksWithin(chunks, MAX_CHUNK) && Flatten(chunks) == Concat(damaged)
    ensures
      FeedAll(chunks, max)
        == Receiver([], Decoded(frames)[k := ReportOf(Damaged(frames[k], at, x))], true)
    ensures ReportOf(Damaged(frames[k], at, x)).FrameRejected?
  {
    hide Reported, ReportOf, Decoded, FeedAll, AllWhole, AllAnnounced, Concat, Damaged;
    var damaged := frames[k := Damaged(frames[k], at, x)];
    DamagedReports(frames, k, at, x);
    DamagedStream(damaged, chunks, max);
    EverythingIn(damaged);
    assert damaged[..|damaged|] == damaged;
  }

  lemma {:induction false} EverythingIn(frames: seq<Bytes>)
    ensures Arrived(frames, |Concat(frames)|) == |frames|
    ensures Unfinished(frames, |Concat(frames)|) == []
  {
    if frames != [] {
      EverythingIn(frames[1..]);
    }
  }

  // The order of the checks

  /** The announced frame at the front with the checksum it should have. */
  function Resealed(data: Bytes, n: nat): Bytes
    requires 4 <= n <= |data|
  {
    data[..n - 4] + Le(Checksum(data[..n - 4]), 4) + data[n..]
  }

  /**
   The checksum is looked at last. Of the data that are refused as a whole frame, those whose
   error is the checksum are exactly those that are accepted with the right checksum; everything
   else is a decode error.
   */
  lemma ChecksumComesLast(data: Bytes)
    requires Decode(data).Rejected? && Decode(data).consumed > 0
    ensures
      var n := Decode(data).consumed;
      && 84 <= n <= |data|
      && (Decode(data).code == ChecksumMismatch <==> Decode(Resealed(data, n)).Accepted?)
      && (Decode(data).code == ChecksumMismatch || Decode(data).code == DecodeError)
  {
    hide FieldLe, ParseTexts, Checksum, HasMagic, EnvelopeOf, AcceptableTexts, ParseHeader, Le;
    var h, n := ParseHeader(data), Decode(data).consumed;
    assert h.prologue.headerLen >= FIXED_HEADER_SIZE && n == TotalLength(h) <= |data|;
    var again := Resealed(data, n);
    SameBefore(data, n);
    assert again[..n - 4] == data[..n - 4];
    ResealedChecksum(data, n);
    TextsWithin(data, again, h.lengths, h.prologue.headerLen, n - 4);
  }

  lemma ResealedChecksum(data: Bytes, n: nat)
    requires 4 <= n <= |data|
    ensures |Resealed(data, n)| == |data|
    ensures U32At(Resealed(data, n), n - 4) == Checksum(data[..n - 4])
  {
    hide Checksum, Le;
    PowersOf256();
    FieldReads(Resealed(data, n), n - 4, Checksum(data[..n - 4]), 4);
  }

  lemma SameBefore(data: Bytes, n: nat)
    requires 84 <= n <= |data| && HasMagic(data)
    ensures |Resealed(data, n)| == |data| && HasMagic(Resealed(data, n))
    ensures ParseHeader(Resealed(data, n)) == ParseHeader(data)
  {
    hide HeaderBytes, ParseHeader, HasMagic, Checksum, Le;
    var again := Resealed(data, n);
    SliceIn(data, 0, n - 4, 0, 80);
    SliceIn(again, 0, n - 4, 0, 80);
    assert again[..n - 4] == data[..n - 4];
    HeaderWrites(data);
    HeaderReads(again, ParseHeader(data));
  }

  lemma TextsWithin(a: Bytes, b: Bytes, l: Lengths, limit: nat, n: nat)
    requires FIXED_HEADER_SIZE <= limit <= n <= |a| && n <= |b| && a[..n] == b[..n]
    ensures ParseTexts(a, l, limit) == ParseTexts(b, l, limit)
  {
    hide ReadUids;
    forall c: nat, d: nat | c <= d <= limit
      ensures a[c..d] == b[c..d]
    {
      SliceIn(a, 0, n, c, d);
      SliceIn(b, 0, n, c, d);
    }
    var c := FIXED_HEADER_SIZE + l.endpoint + l.entity;
    if c <= limit {
      ReadUidsWithin(a, b, c, limit, l.targets);
    }
  }

  // Where the magic or the length is lost

  /** The magic stands at `m` and nowhere before it. */
  predicate MagicFirstAt(b: Bytes, m: nat)
  {
    m <= |b| && HasMagic(b[m..]) && forall i :: 0 <= i < m ==> !HasMagic(b[i..])
  }

  predicate NoMagic(b: Bytes)
  {
    forall i :: 0 <= i <= |b| ==> !HasMagic(b[i..])
  }

  lemma NothingFound(b: Bytes, at: nat)
    requires at <= |b| && forall i :: at <= i <= |b| ==> !HasMagic(b[i..])
    ensures FindMagic(b, at) + 3 >= |b|
  {
    hide HasMagic;
  }

  /** The announced length of a frame. */
  function LengthAt(b: Bytes): nat
    requires |b| >= 14
  {
    U16At(b, 8) + U32At(b, 10) + 4
  }

  /**
   What `decode` says of the front of any data: too short, without the magic, of another version,
   with impossible lengths or unfinished, it consumes nothing; everything else is judged as a whole
   frame of the announced length.
   */
  lemma FrontReport(data: Bytes)
    ensures
      var magic := |data| >= 4 && data[..4] == [0x59, 0x4C, 0x4E, 0x4B];
      if |data| < 84 then Decode(data) == Rejected(DecodeError, 0)
      else if !magic then Decode(data) == Rejected(InvalidHeader, 0)
      else if data[4] != 2 || data[5] != 2 || U16At(data, 18) != 2 then
        Decode(data) == Rejected(ProtocolMismatch, 0)
      else if U16At(data, 8) < 80 || U32At(data, 10) > 16777216 || |data| < LengthAt(data) then
        Decode(data) == Rejected(DecodeError, 0)
      else Decode(data).consumed == LengthAt(data)
  {
    hide FieldLe, ParseTexts, AcceptableTexts, EnvelopeOf, KnownEnumerators, ParseTrace,
      ParseLengths, ParseTyping;
    if |data| >= 4 {
      assert data[..4][0] == data[0] && data[..4][1] == data[1] && data[..4][2] == data[2]
        && data[..4][3] == data[3];
      assert HasMagic(data) ==> data[..4] == [0x59, 0x4C, 0x4E, 0x4B];
    }
  }

  /**
   `pop_frame` on any buffer. Fewer than four bytes wait; without the magic everything is thrown
   away; otherwise what stands before the magic goes, and then: fewer than fourteen bytes wait, a
   header length below 80 or a frame beyond the limit is an error that costs one byte, an
   unfinished frame waits, and a finished one is taken off whole, as an envelope or an error.
   */
  lemma PopExactly(b: Bytes, max: nat, m: nat)
    ensures |b| < 4 ==> PopFrame(b, max) == Nothing(b)
    ensures |b| >= 4 && NoMagic(b) ==> PopFrame(b, max) == Nothing([])
    ensures MagicFirstAt(b, m) ==>
      var c := b[m..];
      if |c| < 14 then PopFrame(b, max) == Nothing(c)
      else if U16At(c, 8) < 80 || LengthAt(c) > max then
        PopFrame(b, max) == Failed(DecodeError, c[1..])
      else if |c| < LengthAt(c) then PopFrame(b, max) == Nothing(c)
      else
        match Decode(c[..LengthAt(c)])
        case Rejected(code, _) => PopFrame(b, max) == Failed(code, c[LengthAt(c)..])
        case Accepted(e, _) => PopFrame(b, max) == Got(e, c[LengthAt(c)..])
  {
    hide Decode, U16At, U32At, HasMagic;
    if |b| >= 4 && NoMagic(b) {
      NothingFound(b, 0);
    }
    if MagicFirstAt(b, m) {
      MagicLength(b[m..]);
      MagicAt(b, 0, m);
      var c := b[m..];
      if |c| >= 14 && U16At(c, 8) >= 80 && LengthAt(c) <= |c|
         && Decode(c[..LengthAt(c)]).Accepted? {
        AcceptedFront(c);
      }
    }
  }

  lemma MagicLength(b: Bytes)
    requires HasMagic(b)
    ensures |b| >= 4
  {
  }

  lemma AcceptedFront(c: Bytes)
    requires |c| >= 14 && LengthAt(c) <= |c| && Decode(c[..LengthAt(c)]).Accepted?
    ensures Decode(c[..LengthAt(c)]).consumed == LengthAt(c)
  {
    hide HasMagic, ParseTexts, KnownEnumerators, AcceptableTexts, EnvelopeOf, FieldLe, ParseTrace,
      ParseLengths, ParseTyping;
    var f := c[..LengthAt(c)];
    AcceptedParts(f);
    SameFront(f, c, |f|);
  }

  /**
   A lost length costs what it must: after a bad header the scan goes on behind its first byte,
   and the next frame is the next one reported.
   */
  lemma BadLengthResyncs(bad: Bytes, f: Bytes, rest: Bytes, max: nat)
    requires WholeFrame(f) && |f| <= max && |bad| >= 14 && HasMagic(bad)
    requires U16At(bad, 8) < 80 || LengthAt(bad) > max
    requires forall i :: 1 <= i < |bad| ==> !HasMagic((bad + (f + rest))[i..])
    ensures
      var (events, left) := Drain(rest, max);
      Drain(bad + (f + rest), max)
        == ([FrameRejected(DecodeError), Received(Decode(f).envelope)] + events, left)
  {
    hide Decode, U16At, U32At, HasMagic, PopFrame;
    var b := bad + (f + rest);
    assert b[..|bad|] == bad;
    SameFront(bad, b, |bad|);
    assert b[0..] == b && b[1..] == bad[1..] + (f + rest);
    PopExactly(b, max, 0);
    forall i | 0 <= i < |bad[1..]|
      ensures !HasMagic((bad[1..] + (f + rest))[i..])
    {
      assert b[1..][i..] == b[i + 1..];
    }
    PopAfterNoise(bad[1..], f, rest, max);
    var (events, left) := Drain(rest, max);
    assert Drain(b[1..], max) == ([Received(Decode(f).envelope)] + events, left);
    assert [FrameRejected(DecodeError)] + ([Received(Decode(f).envelope)] + events)
        == [FrameRejected(DecodeError), Received(Decode(f).envelope)] + events;
  }

  // Overflow recovery on any buffer

  /**
   One step of `recover_receive_overflow` on a buffer over the limit. The front is a frame header
   if it has the magic, a header length of at least 80 and a named class in byte 14: classes 1
   and 2 end the recovery, classes 3 and 4 lose the frame. Anything else goes up to the next
   magic behind the first byte, or altogether.
   */
  lemma RecoverExactly(b: Bytes, max: nat, m: nat)
    requires |b| > max
    ensures
      var header := |b| >= 15 && HasMagic(b) && U16At(b, 8) >= 80 && 1 <= b[14] <= 4;
      && (header && b[14] <= 2 ==> Recover(b, max) == Recovery(false, b))
      && (header && b[14] >= 3 ==>
            Recover(b, max)
              == if LengthAt(b) >= |b| then Recover([], max)
                 else Recover(b[LengthAt(b)..], max))
      && (!header && b != [] && NoMagic(b[1..]) ==> Recover(b, max) == Recovery(true, []))
      && (!header && b != [] && MagicFirstAt(b[1..], m) ==>
            Recover(b, max) == Recover(b[m + 1..], max))
  {
    hide U16At, U32At, HasMagic, Recover, FindMagic, MagicFirstAt, NoMagic, PeekHeader;
    HeaderPeeked(b);
    RecoverStep(b, max);
    if b != [] && NoMagic(b[1..]) {
      NoNextMagic(b);
    }
    if b != [] && MagicFirstAt(b[1..], m) {
      NextMagic(b, m);
    }
    if |b| >= 15 && LengthAt(b) >= |b| {
      assert b[|b|..] == [];
    }
  }

  lemma HeaderPeeked(b: Bytes)
    ensures PeekHeader(b).Some? <==>
      |b| >= 15 && HasMagic(b) && U16At(b, 8) >= 80 && 1 <= b[14] <= 4
    ensures PeekHeader(b).Some? ==>
      && PeekHeader(b).value.frameLen == LengthAt(b)
      && (Lossy(PeekHeader(b).value.qos) <==> b[14] >= 3)
  {
    hide U16At, U32At, HasMagic;
  }

  lemma RecoverStep(b: Bytes, max: nat)
    requires |b| > max
    ensures
      match PeekHeader(b)
      case Some(p) =>
        Recover(b, max)
          == if !Lossy(p.qos) then Recovery(false, b)
             else Recover(b[Min(|b|, p.frameLen)..], max)
      case None =>
        var next := FindMagic(b, 1);
        Recover(b, max) == if next + 3 >= |b| then Recovery(true, []) else Recover(b[next..], max)
  {
    hide PeekHeader, FindMagic, HasMagic;
  }

  lemma NoNextMagic(b: Bytes)
    requires b != [] && NoMagic(b[1..])
    ensures FindMagic(b, 1) + 3 >= |b|
  {
    hide HasMagic, FindMagic;
    forall i | 1 <= i <= |b|
      ensures !HasMagic(b[i..])
    {
      assert b[1..][i - 1..] == b[i..];
    }
    NothingFound(b, 1);
  }

  lemma NextMagic(b: Bytes, m: nat)
    requires b != [] && MagicFirstAt(b[1..], m)
    ensures FindMagic(b, 1) == m + 1 && m + 4 < |b|
  {
    hide HasMagic, FindMagic;
    forall i | 0 <= i <= m
      ensures b[1..][i..] == b[i + 1..]
    {
    }
    forall i | 1 <= i < m + 1
      ensures !HasMagic(b[i..])
    {
      assert b[1..][i - 1..] == b[i..];
    }
    MagicLength(b[m + 1..]);
    MagicAt(b, 1, m + 1);
  }
}
