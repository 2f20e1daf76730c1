/**
 Why the stream of frames does not depend on how it is cut into chunks, and what overflow
 recovery removes from a frame-aligned buffer.
 */
module Framing {
  import opened ByteLayout
  import opened Wire
  import opened FixedHeader
  import opened WireCodec
  import opened Corruption
  import opened Receive

  function Concat(frames: seq<Bytes>): Bytes
  {
    if frames == [] then [] else frames[0] + Concat(frames[1..])
  }

  predicate AllWhole(frames: seq<Bytes>)
  {
    forall i :: 0 <= i < |frames| ==> WholeFrame(frames[i])
  }

  predicate AllWithin(frames: seq<Bytes>, bound: int)
  {
    forall i :: 0 <= i < |frames| ==> |frames[i]| <= bound
  }

  // What the front of a buffer says

  /** A whole frame announces its own length in its first fourteen bytes. */
  lemma Announces(f: Bytes)
    requires WholeFrame(f)
    ensures |f| >= MIN_ENVELOPE_SIZE && HasMagic(f)
    ensures FIXED_HEADER_SIZE <= U16At(f, 8)
    ensures U16At(f, 8) + U32At(f, 10) + TRAILER_SIZE == |f|
    ensures QosOf(f[14]) == Some(Decode(f).envelope.qos)
  {
    hide ParseTexts, ParseTrace, ParseLengths, ParseTyping, AcceptableTexts, FieldLe;
    AcceptedParts(f);
  }

  /** Any buffer that agrees with a frame on its first bytes announces the same. */
  lemma SameFront(f: Bytes, b: Bytes, n: nat)
    requires n <= |f| && n <= |b| && b[..n] == f[..n]
    ensures n >= 4 ==> HasMagic(b) == HasMagic(f)
    ensures n >= 14 ==> U16At(b, 8) == U16At(f, 8) && U32At(b, 10) == U32At(f, 10)
    ensures n >= 15 ==> b[14] == f[14]
  {
    hide FromLe;
    assert forall i :: 0 <= i < n ==> b[i] == b[..n][i] == f[..n][i] == f[i];
    if n >= 14 {
      assert b[8..10] == f[8..10] && b[10..14] == f[10..14];
    }
  }

  lemma MagicInFront(b: Bytes)
    requires HasMagic(b)
    ensures FindMagic(b, 0) == 0
  {
    assert b[0..] == b;
  }

  /** A whole frame at the front is popped, whatever follows it. */
  lemma PopWhole(f: Bytes, rest: Bytes, max: nat)
    requires WholeFrame(f) && |f| <= max
    ensures PopFrame(f + rest, max) == Got(Decode(f).envelope, rest)
  {
    hide Decode, HasMagic, U16At, U32At;
    var b := f + rest;
    assert b[..|f|] == f && b[|f|..] == rest;
    Announces(f);
    SameFront(f, b, |f|);
    MagicInFront(b);
    assert b[0..] == b;
  }

  /** A frame that has not fully arrived stays where it is. */
  lemma PopPartial(f: Bytes, n: nat, max: nat)
    requires WholeFrame(f) && |f| <= max && n < |f|
    ensures PopFrame(f[..n], max) == Nothing(f[..n])
  {
    hide Decode, HasMagic, U16At, U32At;
    var b := f[..n];
    Announces(f);
    SameFront(f, b, n);
    if n >= 4 {
      MagicInFront(b);
      assert b[0..] == b;
    }
  }

  // A prefix of a stream of frames

  /** The frames that lie whole within the first `n` bytes. */
  function Arrived(frames: seq<Bytes>, n: nat): (r: nat)
    ensures r <= |frames|
  {
    if frames == [] || n < |frames[0]| then 0 else 1 + Arrived(frames[1..], n - |frames[0]|)
  }

  /** What the first `n` bytes hold after those frames. */
  function Unfinished(frames: seq<Bytes>, n: nat): Bytes
    requires n <= |Concat(frames)|
  {
    if frames == [] || n < |frames[0]| then Concat(frames)[..n]
    else Unfinished(frames[1..], n - |frames[0]|)
  }

  function Decoded(frames: seq<Bytes>): (r: seq<Event>)
    requires AllWhole(frames)
    ensures |r| == |frames|
  {
    seq(|frames|, i requires 0 <= i < |frames| => Received(Decode(frames[i]).envelope))
  }

  lemma DecodedHead(frames: seq<Bytes>)
    requires AllWhole(frames) && frames != []
    ensures Decoded(frames) == [Received(Decode(frames[0]).envelope)] + Decoded(frames[1..])
  {
    hide WholeFrame, Decode;
  }

  /** Draining the first `n` bytes of a stream gives its first frames and keeps the rest. */
  lemma {:induction false} DrainPrefix(frames: seq<Bytes>, n: nat, max: nat)
    requires AllWhole(frames) && AllWithin(frames, max) && n <= |Concat(frames)|
    ensures
      Drain(Concat(frames)[..n], max)
        == (Decoded(frames[..Arrived(frames, n)]), Unfinished(frames, n))
    decreases |frames|
  {
    hide Decode, PopFrame;
    if frames == [] {
      assert Concat(frames)[..n] == [];
      DrainNothing([], max);
    } else {
      var f, rest := frames[0], frames[1..];
      var s := Concat(frames);
      if n < |f| {
        assert s[..n] == f[..n];
        PopPartial(f, n, max);
      } else {
        var m := n - |f|;
        assert s[..n] == f + Concat(rest)[..m];
        PopWhole(f, Concat(rest)[..m], max);
        DrainPrefix(rest, m, max);
        var k := Arrived(rest, m);
        assert frames[..k + 1][1..] == rest[..k];
        DecodedHead(frames[..k + 1]);
      }
    }
  }

  lemma DrainNothing(b: Bytes, max: nat)
    requires |b| < 4
    ensures Drain(b, max) == ([], b)
  {
  }

  /** What is left over is shorter than the frame it belongs to. */
  lemma {:induction false} UnfinishedShort(frames: seq<Bytes>, n: nat, bound: nat)
    requires n <= |Concat(frames)| && AllWithin(frames, bound)
    ensures Unfinished(frames, n) == [] || |Unfinished(frames, n)| < bound
    decreases |frames|
  {
    if frames == [] {
      assert Concat(frames)[..n] == [];
    } else if n >= |frames[0]| {
      UnfinishedShort(frames[1..], n - |frames[0]|, bound);
    }
  }

  /** Draining what was left over, extended by the next bytes of the stream. */
  lemma {:induction false} DrainMore(frames: seq<Bytes>, n: nat, m: nat, max: nat)
    requires AllWhole(frames) && AllWithin(frames, max) && n <= m <= |Concat(frames)|
    ensures Arrived(frames, n) <= Arrived(frames, m)
    ensures
      Drain(Unfinished(frames, n) + Concat(frames)[n..m], max)
        == (Decoded(frames[Arrived(frames, n)..Arrived(frames, m)]), Unfinished(frames, m))
    decreases |frames|
  {
    hide Decode, Drain, WholeFrame;
    var s := Concat(frames);
    if frames == [] || n < |frames[0]| {
      assert s[..n] + s[n..m] == s[..m];
      DrainPrefix(frames, m, max);
      assert frames[0..Arrived(frames, m)] == frames[..Arrived(frames, m)];
    } else {
      var f, rest := frames[0], frames[1..];
      DrainMore(rest, n - |f|, m - |f|, max);
      SliceBehind(f, Concat(rest), n, m);
      var i, j := Arrived(rest, n - |f|), Arrived(rest, m - |f|);
      assert rest[i..j] == frames[i + 1..j + 1];
    }
  }

  lemma SliceBehind(a: Bytes, b: Bytes, n: nat, m: nat)
    requires |a| <= n <= m <= |a| + |b|
    ensures (a + b)[n..m] == b[n - |a|..m - |a|]
  {
  }

  // Chunk independence

  function Flatten(chunks: seq<Bytes>): Bytes
  {
    if chunks == [] then [] else Flatten(chunks[..|chunks| - 1]) + chunks[|chunks| - 1]
  }

  predicate ChunksWithin(chunks: seq<Bytes>, bound: nat)
  {
    forall i :: 0 <= i < |chunks| ==> |chunks[i]| <= bound
  }

  lemma DecodedSplit(frames: seq<Bytes>, i: nat, j: nat)
    requires AllWhole(frames) && i <= j <= |frames|
    ensures Decoded(frames[..i]) + Decoded(frames[i..j]) == Decoded(frames[..j])
  {
    hide WholeFrame, Decode;
  }

  /**
   Chunk independence. However a prefix of a stream of frames is cut into chunks of at most
   8192 bytes, the receiver reports exactly the frames that arrived whole, in order, keeps
   exactly the unfinished tail, and never enters overflow recovery, provided every frame
   leaves room for one chunk less a byte.
   */
  lemma {:induction false} ChunkIndependence(frames: seq<Bytes>, chunks: seq<Bytes>, max: nat)
    requires AllWhole(frames) && AllWithin(frames, max - (MAX_CHUNK - 1))
    requires ChunksWithin(chunks, MAX_CHUNK) && Flatten(chunks) <= Concat(frames)
    ensures
      var n := |Flatten(chunks)|;
      FeedAll(chunks, max)
        == Receiver(Unfinished(frames, n), Decoded(frames[..Arrived(frames, n)]), true)
    decreases |chunks|
  {
    hide Decode, Drain, WholeFrame;
    var s := Concat(frames);
    if chunks == [] {
      NothingArrived(frames);
    } else {
      var init, chunk := chunks[..|chunks| - 1], chunks[|chunks| - 1];
      var n, m := |Flatten(init)|, |Flatten(chunks)|;
      assert Flatten(init) == Flatten(chunks)[..n];
      assert s[..m] == Flatten(chunks) && chunk == s[n..m];
      ChunkIndependence(frames, init, max);
      StepWithinBuffer(frames, n, m, max);
      DrainMore(frames, n, m, max);
      DecodedSplit(frames, Arrived(frames, n), Arrived(frames, m));
    }
  }

  lemma {:induction false} NothingArrived(frames: seq<Bytes>)
    requires AllWhole(frames)
    ensures Arrived(frames, 0) == 0 && Unfinished(frames, 0) == []
    ensures Decoded(frames[..0]) == []
  {
    hide Decode;
    if frames != [] {
      Announces(frames[0]);
    }
  }

  /** The unfinished tail and one more chunk always fit. */
  lemma StepWithinBuffer(frames: seq<Bytes>, n: nat, m: nat, max: nat)
    requires AllWhole(frames) && AllWithin(frames, max - (MAX_CHUNK - 1))
    requires n <= m <= |Concat(frames)| && m - n <= MAX_CHUNK
    ensures |Unfinished(frames, n) + Concat(frames)[n..m]| <= max
  {
    hide WholeFrame;
    if frames != [] {
      Announces(frames[0]);
      assert |frames[0]| <= max - (MAX_CHUNK - 1);
      UnfinishedShort(frames, n, max - (MAX_CHUNK - 1));
    }
  }

  // Overflow recovery on whole frames

  predicate IsLossy(f: Bytes)
    requires WholeFrame(f)
  {
    Lossy(Decode(f).envelope.qos)
  }

  /** How many leading frames recovery removes from the first `n` bytes of a stream. */
  function Removed(frames: seq<Bytes>, n: nat, max: nat): (r: nat)
    requires AllWhole(frames)
    ensures r <= |frames|
  {
    if n <= max || frames == [] || !IsLossy(frames[0]) then 0
    else 1 + Removed(frames[1..], n - Min(n, |frames[0]|), max)
  }

  /** The first `k` frames are lossy, and before each of them the buffer is over the limit. */
  predicate NeededAndLossy(frames: seq<Bytes>, n: nat, max: nat, k: nat)
    requires AllWhole(frames) && k <= |frames|
  {
    forall i :: 0 <= i < k ==>
      IsLossy(frames[i]) && |Concat(frames[..i])| <= n && n - |Concat(frames[..i])| > max
  }

  lemma PeekWhole(f: Bytes, b: Bytes)
    requires WholeFrame(f) && |b| >= 15
    requires b[..Min(|b|, |f|)] == f[..Min(|b|, |f|)]
    ensures PeekHeader(b) == Some(Peek(|f|, Decode(f).envelope.qos))
  {
    hide Decode, HasMagic, U16At, U32At;
    Announces(f);
    SameFront(f, b, Min(|b|, |f|));
  }

  /** One step of recovery on an aligned buffer over the limit. */
  lemma RecoverFirst(frames: seq<Bytes>, n: nat, max: nat)
    requires AllWhole(frames) && n <= |Concat(frames)| && n > max >= 14
    ensures frames != []
    ensures n - Min(n, |frames[0]|) <= |Concat(frames[1..])|
    ensures
      var m := n - Min(n, |frames[0]|);
      Recover(Concat(frames)[..n], max)
        == if IsLossy(frames[0]) then Recover(Concat(frames[1..])[..m], max)
           else Recovery(false, Concat(frames)[..n])
  {
    hide Decode, PeekHeader;
    var f, s := frames[0], Concat(frames);
    var d := Min(n, |f|);
    assert s[..n][..d] == f[..d];
    PeekWhole(f, s[..n]);
    assert s[..n][d..] == Concat(frames[1..])[..n - d];
  }

  /** One more removed frame in front. */
  lemma NeededStep(frames: seq<Bytes>, n: nat, max: nat, k: nat)
    requires AllWhole(frames) && frames != [] && k < |frames| && n > max
    requires IsLossy(frames[0])
    requires NeededAndLossy(frames[1..], n - Min(n, |frames[0]|), max, k)
    ensures NeededAndLossy(frames, n, max, k + 1)
  {
    hide Decode;
    var rest := frames[1..];
    forall i | 0 <= i < k + 1
      ensures IsLossy(frames[i]) && |Concat(frames[..i])| <= n
      ensures n - |Concat(frames[..i])| > max
    {
      if i == 0 {
        assert frames[..0] == [];
      } else {
        assert frames[..i][1..] == rest[..i - 1];
        assert IsLossy(rest[i - 1]);
      }
    }
  }

  /** The bytes removed with one more frame in front. */
  lemma CutStep(frames: seq<Bytes>, n: nat, k: nat)
    requires frames != [] && k < |frames| && n <= |Concat(frames)|
    requires n - Min(n, |frames[0]|) <= |Concat(frames[1..])|
    ensures
      var d := Min(n, |frames[0]|);
      var cut := Min(n - d, |Concat(frames[1..][..k])|);
      && Min(n, |Concat(frames[..k + 1])|) == d + cut
      && Concat(frames)[d + cut..n] == Concat(frames[1..])[cut..n - d]
  {
    assert frames[..k + 1][1..] == frames[1..][..k];
    var d := Min(n, |frames[0]|);
    if d == n {
      assert Concat(frames)[n..n] == Concat(frames[1..])[0..0];
    }
  }

  /** Recovery removes exactly the first `k` frames, or what there is of them. */
  predicate RemovesFrames(frames: seq<Bytes>, n: nat, max: nat, k: nat)
    requires AllWhole(frames) && n <= |Concat(frames)|
  {
    && k <= |frames|
    && NeededAndLossy(frames, n, max, k)
    && var cut := Min(n, |Concat(frames[..k])|);
       && Recover(Concat(frames)[..n], max)
          == Recovery(n - cut <= max, Concat(frames)[cut..n])
       && (n - cut > max ==> k < |frames| && !IsLossy(frames[k]))
  }

  lemma RemovesOneMore(frames: seq<Bytes>, n: nat, max: nat, k: nat)
    requires AllWhole(frames) && n <= |Concat(frames)| && n > max >= 14
    requires frames != [] && IsLossy(frames[0])
    requires n - Min(n, |frames[0]|) <= |Concat(frames[1..])|
    requires RemovesFrames(frames[1..], n - Min(n, |frames[0]|), max, k)
    ensures RemovesFrames(frames, n, max, k + 1)
  {
    hide IsLossy, Recover, NeededAndLossy, WholeFrame, Concat;
    RecoverFirst(frames, n, max);
    NeededStep(frames, n, max, k);
    CutStep(frames, n, k);
  }

  /**
   Recovery of a frame-aligned buffer, the last frame possibly incomplete. It removes only
   leading lossy frames, as few as it can, and gives up exactly when it reaches a reliable
   frame while still over the limit.
   */
  lemma {:induction false} RecoverAligned(frames: seq<Bytes>, n: nat, max: nat)
    requires AllWhole(frames) && n <= |Concat(frames)| && max >= 14
    ensures RemovesFrames(frames, n, max, Removed(frames, n, max))
    decreases |frames|
  {
    hide IsLossy, Recover, NeededAndLossy, WholeFrame, Concat, RemovesFrames;
    if n <= max {
      RecoverNothing(frames, n, max);
    } else {
      RecoverFirst(frames, n, max);
      if IsLossy(frames[0]) {
        var d := Min(n, |frames[0]|);
        RecoverAligned(frames[1..], n - d, max);
        RemovesOneMore(frames, n, max, Removed(frames[1..], n - d, max));
      } else {
        RecoverNothing(frames, n, max);
      }
    }
  }

  lemma RecoverNothing(frames: seq<Bytes>, n: nat, max: nat)
    requires AllWhole(frames) && n <= |Concat(frames)|
    requires n <= max || (frames != [] && !IsLossy(frames[0])
                          && Recover(Concat(frames)[..n], max)
                             == Recovery(false, Concat(frames)[..n]))
    ensures RemovesFrames(frames, n, max, 0)
  {
    hide IsLossy, WholeFrame;
    assert frames[..0] == [];
    assert Concat(frames)[0..n] == Concat(frames)[..n];
  }

  // Noise in front of a frame

  /**
   Bytes in front of a frame are skipped, as long as the magic does not begin among them: the
   frame after them is the next one popped.
   */
  lemma PopAfterNoise(noise: Bytes, f: Bytes, rest: Bytes, max: nat)
    requires WholeFrame(f) && |f| <= max
    requires forall i :: 0 <= i < |noise| ==> !HasMagic((noise + (f + rest))[i..])
    ensures PopFrame(noise + (f + rest), max) == Got(Decode(f).envelope, rest)
  {
    hide Decode, HasMagic, U16At, U32At;
    var b := noise + (f + rest);
    Announces(f);
    assert b[|noise|..] == f + rest;
    SameFront(f, f + rest, |f|);
    MagicAt(b, 0, |noise|);
    PopWhole(f, rest, max);
    MagicInFront(f + rest);
    assert (f + rest)[0..] == f + rest;
  }

  lemma {:induction false} MagicAt(b: Bytes, from: nat, at: nat)
    requires from <= at && at + 3 < |b| && HasMagic(b[at..])
    requires forall i :: from <= i < at ==> !HasMagic(b[i..])
    ensures FindMagic(b, from) == at
    decreases at - from
  {
    hide HasMagic;
    if from < at {
      MagicAt(b, from + 1, at);
    }
  }

  // Any bytes at all

  lemma {:induction false} DrainShrinks(b: Bytes, max: nat)
    ensures |Drain(b, max).1| <= |b|
    decreases |b|
  {
    hide PopFrame;
    PopLeavesSuffix(b, max);
    match PopFrame(b, max)
    case Nothing(_) =>
    case Failed(_, rest) => DrainShrinks(rest, max);
    case Got(_, rest) => DrainShrinks(rest, max);
  }

  /**
   Whatever bytes arrive, in chunks of at most 8192, the buffer is within the limit after
   every turn of an open connection, and at most one chunk over it on one that gave up.
   */
  lemma {:induction false} BufferBounded(chunks: seq<Bytes>, max: nat)
    requires ChunksWithin(chunks, MAX_CHUNK)
    ensures
      var r := FeedAll(chunks, max);
      |r.buffer| <= if r.open then max else max + MAX_CHUNK
    decreases |chunks|
  {
    hide Drain, Recover;
    if chunks != [] {
      var init, chunk := chunks[..|chunks| - 1], chunks[|chunks| - 1];
      BufferBounded(init, max);
      var r := FeedAll(init, max);
      DrainShrinks(r.buffer + chunk, max);
      DrainShrinks(Recover(r.buffer + chunk, max).rest, max);
    }
  }
}
