/**
 How much room a frame needs in the receive buffer: exactly which streams of frames arrive
 whole however they are cut into chunks, and exactly which keep the connection open.
 */
module Room {
  import opened ByteLayout
  import opened Sequences
  import opened Wire
  import opened FixedHeader
  import opened WireCodec
  import opened Corruption
  import opened Receive
  import opened Framing

  /** Where frame `i` of a stream starts. */
  function Start(frames: seq<Bytes>, i: nat): nat
    requires i <= |frames|
  {
    |Concat(frames[..i])|
  }

  /**
   Frame `i` fits together with the most that one chunk can bring after its last byte but one:
   8191 bytes, or all that follows it if that is less.
   */
  predicate HasRoom(frames: seq<Bytes>, i: nat, max: nat)
    requires i < |frames|
  {
    |frames[i]| + Min(MAX_CHUNK - 1, |Concat(frames[i + 1..])|) <= max
  }

  /** Chunks the receive thread can read of a stream: any cut of any prefix of it. */
  predicate CutOf(chunks: seq<Bytes>, stream: Bytes)
  {
    ChunksWithin(chunks, MAX_CHUNK) && Flatten(chunks) <= stream
  }

  /** The same in numbers: chunks of at most 8192 bytes, and room for 8191 of them. */
  lemma RoomInNumbers(frames: seq<Bytes>, i: nat, chunks: seq<Bytes>, max: nat)
    requires i < |frames|
    ensures HasRoom(frames, i, max) <==>
      |frames[i]| + 8191 <= max || |frames[i]| + |Concat(frames[i + 1..])| <= max
    ensures CutOf(chunks, Concat(frames)) <==>
      && (forall k :: 0 <= k < |chunks| ==> |chunks[k]| <= 8192)
      && Flatten(chunks) <= Concat(frames)
  {
  }

  // Where a position lies

  lemma {:induction false} ConcatSplit(frames: seq<Bytes>, i: nat)
    requires i <= |frames|
    ensures Concat(frames) == Concat(frames[..i]) + Concat(frames[i..])
  {
    if i == 0 {
      assert frames[..0] == [] && frames[0..] == frames;
    } else {
      ConcatSplit(frames[1..], i - 1);
      assert frames[..i][1..] == frames[1..][..i - 1];
      assert frames[1..][i - 1..] == frames[i..];
    }
  }

  lemma StartNext(frames: seq<Bytes>, i: nat)
    requires i < |frames|
    ensures Start(frames, i + 1) == Start(frames, i) + |frames[i]|
    ensures Start(frames, i + 1) + |Concat(frames[i + 1..])| == |Concat(frames)|
    ensures Concat(frames)[Start(frames, i)..Start(frames, i + 1)] == frames[i]
  {
    ConcatSplit(frames, i);
    ConcatSplit(frames, i + 1);
    ConcatSplit(frames[..i + 1], i);
    assert frames[..i + 1][..i] == frames[..i] && frames[..i + 1][i..] == [frames[i]];
    var one := [frames[i]];
    assert |one[1..]| == 0;
    assert Concat(one) == frames[i];
  }

  lemma StartEnds(frames: seq<Bytes>)
    ensures Start(frames, 0) == 0 && Start(frames, |frames|) == |Concat(frames)|
  {
    assert frames[..0] == [] && frames[..|frames|] == frames;
  }

  lemma {:induction false} StartMonotonic(frames: seq<Bytes>, i: nat, j: nat)
    requires i <= j <= |frames|
    ensures Start(frames, i) <= Start(frames, j) <= |Concat(frames)|
    decreases j - i
  {
    ConcatSplit(frames, j);
    if i < j {
      StartMonotonic(frames, i, j - 1);
      StartNext(frames, j - 1);
    }
  }

  /** The frames that arrived, and what is left over, in terms of where they start. */
  lemma {:induction false} ArrivedAt(frames: seq<Bytes>, n: nat)
    requires n <= |Concat(frames)|
    ensures
      var i := Arrived(frames, n);
      && Start(frames, i) <= n
      && Unfinished(frames, n) == Concat(frames)[Start(frames, i)..n]
      && (i < |frames| ==> n < Start(frames, i + 1))
    decreases |frames|, 1
  {
    StartEnds(frames);
    if frames != [] {
      StartNext(frames, 0);
      assert frames[1..] == frames[0 + 1..];
      if n >= |frames[0]| {
        ArrivedLater(frames, n);
      } else {
        assert Concat(frames)[0..n] == Concat(frames)[..n];
      }
    } else {
      assert Concat(frames)[0..n] == Concat(frames)[..n];
    }
  }

  lemma {:induction false} ArrivedLater(frames: seq<Bytes>, n: nat)
    requires frames != [] && |frames[0]| <= n <= |Concat(frames)|
    ensures
      var i := Arrived(frames, n);
      && Start(frames, i) <= n
      && Unfinished(frames, n) == Concat(frames)[Start(frames, i)..n]
      && (i < |frames| ==> n < Start(frames, i + 1))
    decreases |frames|, 0
  {
    hide Start, Arrived, Unfinished, Concat;
    var rest, d := frames[1..], |frames[0]|;
    FirstArrives(frames, n);
    ArrivedAt(rest, n - d);
    var k := Arrived(rest, n - d);
    StartShift(frames, k);
    if k < |rest| {
      StartShift(frames, k + 1);
    }
    SliceAfter(frames[0], Concat(rest), Start(rest, k), n - d);
  }

  lemma FirstArrives(frames: seq<Bytes>, n: nat)
    requires frames != [] && |frames[0]| <= n <= |Concat(frames)|
    ensures Concat(frames) == frames[0] + Concat(frames[1..])
    ensures Arrived(frames, n) == 1 + Arrived(frames[1..], n - |frames[0]|)
    ensures Unfinished(frames, n) == Unfinished(frames[1..], n - |frames[0]|)
  {
  }

  lemma SliceAfter(a: Bytes, b: Bytes, lo: nat, hi: nat)
    requires lo <= hi <= |b|
    ensures (a + b)[|a| + lo..|a| + hi] == b[lo..hi]
  {
  }

  lemma StartShift(frames: seq<Bytes>, k: nat)
    requires frames != [] && k < |frames|
    ensures Start(frames, k + 1) == |frames[0]| + Start(frames[1..], k)
  {
    assert frames[..k + 1][1..] == frames[1..][..k];
  }

  /** And conversely: a position inside frame `i` is one at which `i` frames have arrived. */
  lemma ArrivedIs(frames: seq<Bytes>, n: nat, i: nat)
    requires i < |frames| && Start(frames, i) <= n < Start(frames, i + 1)
    ensures n <= |Concat(frames)| && Arrived(frames, n) == i
  {
    StartMonotonic(frames, i + 1, |frames|);
    ArrivedAt(frames, n);
    var k := Arrived(frames, n);
    if k < i {
      StartMonotonic(frames, k + 1, i);
    } else if k > i {
      StartMonotonic(frames, i + 1, k);
    }
  }

  // One byte at a time

  /** The cut into single bytes. */
  function Bytewise(b: Bytes): (r: seq<Bytes>)
    ensures |r| == |b| && ChunksWithin(r, MAX_CHUNK)
  {
    seq(|b|, i requires 0 <= i < |b| => [b[i]])
  }

  lemma {:induction false} FlattenBytewise(b: Bytes)
    ensures Flatten(Bytewise(b)) == b
    decreases |b|
  {
    if b != [] {
      FlattenBytewise(b[..|b| - 1]);
      assert Bytewise(b)[..|b| - 1] == Bytewise(b[..|b| - 1]);
    }
  }

  /** What the receiver is after `n` bytes of the stream when nothing overflowed. */
  function Undisturbed(frames: seq<Bytes>, n: nat): Receiver
    requires AllWhole(frames) && n <= |Concat(frames)|
  {
    Receiver(Unfinished(frames, n), Decoded(frames[..Arrived(frames, n)]), true)
  }

  /** One chunk that fits keeps it so. */
  lemma FeedFits(frames: seq<Bytes>, n: nat, m: nat, max: nat)
    requires AllWhole(frames) && AllWithin(frames, max) && n <= m <= |Concat(frames)|
    requires |Unfinished(frames, n)| + (m - n) <= max
    ensures Feed(Undisturbed(frames, n), Concat(frames)[n..m], max) == Undisturbed(frames, m)
  {
    hide Decode, Drain, WholeFrame;
    DrainMore(frames, n, m, max);
    DecodedSplit(frames, Arrived(frames, n), Arrived(frames, m));
  }

  lemma NothingYet(frames: seq<Bytes>)
    requires AllWhole(frames)
    ensures Undisturbed(frames, 0) == FRESH
  {
    NothingArrived(frames);
  }

  lemma FrameNonempty(frames: seq<Bytes>, i: nat)
    requires AllWhole(frames) && i < |frames|
    ensures |frames[i]| >= MIN_ENVELOPE_SIZE
  {
    hide WholeFrame;
    Announces(frames[i]);
  }

  /** Cut into single bytes, any stream of frames within the limit arrives undisturbed. */
  lemma {:induction false} BytewiseArrives(frames: seq<Bytes>, n: nat, max: nat)
    requires AllWhole(frames) && AllWithin(frames, max) && n <= |Concat(frames)|
    ensures FeedAll(Bytewise(Concat(frames)[..n]), max) == Undisturbed(frames, n)
    decreases n
  {
    hide Feed, Undisturbed, WholeFrame, Unfinished;
    if n == 0 {
      NothingYet(frames);
    } else {
      var s := Concat(frames);
      BytewiseArrives(frames, n - 1, max);
      var chunks := Bytewise(s[..n]);
      assert chunks[..n - 1] == Bytewise(s[..n - 1]);
      assert chunks[n - 1] == s[n - 1..n];
      ArrivedAt(frames, n - 1);
      var i := Arrived(frames, n - 1);
      StartEnds(frames);
      if i < |frames| {
        StartNext(frames, i);
      }
      FeedFits(frames, n - 1, n, max);
    }
  }

  // A chunk that does not fit

  /** The stream up to the last byte but one of frame `i`, byte by byte, and then a chunk. */
  function TightCut(frames: seq<Bytes>, i: nat): seq<Bytes>
    requires AllWhole(frames) && i < |frames|
  {
    StartNext(frames, i);
    FrameNonempty(frames, i);
    var n := Start(frames, i + 1) - 1;
    var m := n + 1 + Min(MAX_CHUNK - 1, |Concat(frames[i + 1..])|);
    Bytewise(Concat(frames)[..n]) + [Concat(frames)[n..m]]
  }

  lemma CutGrows(chunks: seq<Bytes>, chunk: Bytes, stream: Bytes, n: nat, m: nat)
    requires ChunksWithin(chunks, MAX_CHUNK) && n <= m <= |stream| && m - n <= MAX_CHUNK
    requires Flatten(chunks) == stream[..n] && chunk == stream[n..m]
    ensures CutOf(chunks + [chunk], stream)
    ensures Flatten(chunks + [chunk]) == stream[..m]
  {
    assert (chunks + [chunk])[..|chunks|] == chunks;
    assert stream[..n] + stream[n..m] == stream[..m];
  }

  lemma TightCutIsCut(frames: seq<Bytes>, i: nat)
    requires AllWhole(frames) && i < |frames|
    ensures CutOf(TightCut(frames, i), Concat(frames))
    ensures |Flatten(TightCut(frames, i))|
         == Start(frames, i + 1) + Min(MAX_CHUNK - 1, |Concat(frames[i + 1..])|)
  {
    hide Concat, WholeFrame, Start, Bytewise, CutOf, Flatten;
    StartNext(frames, i);
    FrameNonempty(frames, i);
    var s := Concat(frames);
    var n := Start(frames, i + 1) - 1;
    var m := n + 1 + Min(MAX_CHUNK - 1, |Concat(frames[i + 1..])|);
    FlattenBytewise(s[..n]);
    CutGrows(Bytewise(s[..n]), s[n..m], s, n, m);
  }

  /** That chunk overflows the buffer exactly when the frame has no room. */
  lemma TightCutFeeds(frames: seq<Bytes>, i: nat, max: nat)
    requires AllWhole(frames) && AllWithin(frames, max) && i < |frames|
    requires !HasRoom(frames, i, max)
    ensures
      var n := Start(frames, i + 1) - 1;
      var m := n + 1 + Min(MAX_CHUNK - 1, |Concat(frames[i + 1..])|);
      && Start(frames, i) <= n <= m <= |Concat(frames)|
      && m - Start(frames, i) > max
      && Arrived(frames, n) == i
      && FeedAll(TightCut(frames, i), max)
         == Feed(Undisturbed(frames, n), Concat(frames)[n..m], max)
      && Unfinished(frames, n) + Concat(frames)[n..m] == Concat(frames)[Start(frames, i)..m]
  {
    hide Concat, WholeFrame, Feed, Undisturbed, Unfinished, Start;
    StartNext(frames, i);
    FrameNonempty(frames, i);
    var s := Concat(frames);
    var n := Start(frames, i + 1) - 1;
    var m := n + 1 + Min(MAX_CHUNK - 1, |Concat(frames[i + 1..])|);
    BytewiseArrives(frames, n, max);
    ArrivedIs(frames, n, i);
    ArrivedAt(frames, n);
    var chunks := TightCut(frames, i);
    assert chunks[..|chunks| - 1] == Bytewise(s[..n]) && chunks[|chunks| - 1] == s[n..m];
    assert s[Start(frames, i)..n] + s[n..m] == s[Start(frames, i)..m];
  }

  // Every frame arrives

  /** However it is cut, the receiver reports what arrived, keeps the tail and stays open. */
  ghost predicate EveryCutArrives(frames: seq<Bytes>, max: nat)
    requires AllWhole(frames)
  {
    forall chunks :: CutOf(chunks, Concat(frames)) ==>
      FeedAll(chunks, max) == Undisturbed(frames, |Flatten(chunks)|)
  }

  /** With room everywhere, no chunk overflows. */
  lemma ChunkFits(frames: seq<Bytes>, n: nat, m: nat, max: nat)
    requires AllWhole(frames) && AllWithin(frames, max) && n <= m <= |Concat(frames)|
    requires m - n <= MAX_CHUNK
    requires Arrived(frames, n) < |frames| ==> HasRoom(frames, Arrived(frames, n), max)
    ensures |Unfinished(frames, n)| + (m - n) <= max
  {
    hide Concat, WholeFrame, Unfinished, Start;
    ArrivedAt(frames, n);
    StartEnds(frames);
    var i := Arrived(frames, n);
    if i < |frames| {
      StartNext(frames, i);
    }
  }

  lemma {:induction false} RoomArrives(frames: seq<Bytes>, chunks: seq<Bytes>, max: nat)
    requires AllWhole(frames) && AllWithin(frames, max) && CutOf(chunks, Concat(frames))
    requires forall i :: 0 <= i < |frames| ==> HasRoom(frames, i, max)
    ensures FeedAll(chunks, max) == Undisturbed(frames, |Flatten(chunks)|)
    decreases |chunks|
  {
    hide Feed, Undisturbed, WholeFrame, Concat, Unfinished, HasRoom;
    if chunks == [] {
      NothingYet(frames);
    } else {
      var s := Concat(frames);
      var init, chunk := chunks[..|chunks| - 1], chunks[|chunks| - 1];
      var n, m := |Flatten(init)|, |Flatten(chunks)|;
      assert Flatten(init) == Flatten(chunks)[..n];
      assert s[..m] == Flatten(chunks) && chunk == s[n..m];
      RoomArrives(frames, init, max);
      ChunkFits(frames, n, m, max);
      FeedFits(frames, n, m, max);
    }
  }

  lemma OverflowShows(r: Receiver, chunk: Bytes, max: nat)
    requires r.open && |r.buffer + chunk| > max
    ensures
      var t := Feed(r, chunk, max);
      t.open ==> |t.events| > |r.events| && t.events[|r.events|] == LossyDropped
  {
    hide Drain, Recover;
  }

  lemma UndisturbedReports(frames: seq<Bytes>, n: nat)
    requires AllWhole(frames) && n <= |Concat(frames)|
    ensures Undisturbed(frames, n).open
    ensures LossyDropped !in Undisturbed(frames, n).events
  {
    hide WholeFrame, Decode;
  }

  lemma NoRoomDisturbs(frames: seq<Bytes>, i: nat, max: nat)
    requires AllWhole(frames) && AllWithin(frames, max) && i < |frames|
    requires !HasRoom(frames, i, max)
    ensures CutOf(TightCut(frames, i), Concat(frames))
    ensures FeedAll(TightCut(frames, i), max)
         != Undisturbed(frames, |Flatten(TightCut(frames, i))|)
  {
    hide Concat, WholeFrame, Feed, Unfinished, Start, TightCut, HasRoom, Undisturbed, FeedAll,
      Flatten;
    TightCutIsCut(frames, i);
    TightCutFeeds(frames, i, max);
    var n := Start(frames, i + 1) - 1;
    var m := n + 1 + Min(MAX_CHUNK - 1, |Concat(frames[i + 1..])|);
    assert Undisturbed(frames, n).buffer == Unfinished(frames, n) && Undisturbed(frames, n).open by {
      UndisturbedBuffer(frames, n);
    }
    OverflowShows(Undisturbed(frames, n), Concat(frames)[n..m], max);
    UndisturbedReports(frames, |Flatten(TightCut(frames, i))|);
  }

  lemma UndisturbedBuffer(frames: seq<Bytes>, n: nat)
    requires AllWhole(frames) && n <= |Concat(frames)|
    ensures Undisturbed(frames, n).buffer == Unfinished(frames, n) && Undisturbed(frames, n).open
  {
  }

  /**
   Chunk independence, exactly. For any whole frames within the limit, every cut of the stream
   into chunks of at most 8192 makes the receiver report the frames that arrived and keep the
   tail, if and only if every frame, reliable or lossy, has room for what one chunk can bring
   beyond it.
   */
  lemma EveryFrameArrivesExactly(frames: seq<Bytes>, max: nat)
    requires AllWhole(frames) && AllWithin(frames, max)
    ensures EveryCutArrives(frames, max)
       <==> forall i :: 0 <= i < |frames| ==> HasRoom(frames, i, max)
  {
    hide WholeFrame, Concat, HasRoom, Undisturbed, FeedAll, TightCut, Flatten;
    if forall i :: 0 <= i < |frames| ==> HasRoom(frames, i, max) {
      forall chunks | CutOf(chunks, Concat(frames))
        ensures FeedAll(chunks, max) == Undisturbed(frames, |Flatten(chunks)|)
      {
        RoomArrives(frames, chunks, max);
      }
    } else {
      var i :| 0 <= i < |frames| && !HasRoom(frames, i, max);
      NoRoomDisturbs(frames, i, max);
    }
  }

  // A chunk that overflows the buffer

  /** Counting from a later frame: the same frames arrive, and the same tail is left over. */
  lemma {:induction false} ArrivedFrom(frames: seq<Bytes>, i: nat, m: nat)
    requires i <= |frames| && Start(frames, i) <= m <= |Concat(frames)|
    ensures m - Start(frames, i) <= |Concat(frames[i..])|
    ensures Arrived(frames, m) == i + Arrived(frames[i..], m - Start(frames, i))
    ensures Unfinished(frames, m) == Unfinished(frames[i..], m - Start(frames, i))
    decreases i
  {
    StartEnds(frames);
    if i == 0 {
      assert frames[0..] == frames;
    } else {
      StartMonotonic(frames, 1, i);
      StartNext(frames, 0);
      StartShift(frames, i - 1);
      ArrivedFrom(frames[1..], i - 1, m - |frames[0]|);
      assert frames[1..][i - 1..] == frames[i..];
    }
  }

  lemma StreamFrom(frames: seq<Bytes>, i: nat, m: nat)
    requires i <= |frames| && Start(frames, i) <= m <= |Concat(frames)|
    ensures m - Start(frames, i) <= |Concat(frames[i..])|
    ensures Concat(frames)[Start(frames, i)..m] == Concat(frames[i..])[..m - Start(frames, i)]
  {
    hide Concat;
    ConcatSplit(frames, i);
  }

  lemma StartFrom(frames: seq<Bytes>, j: nat, k: nat)
    requires j + k <= |frames|
    ensures Start(frames, j + k) == Start(frames, j) + |Concat(frames[j..][..k])|
  {
    hide Concat;
    ConcatSplit(frames[..j + k], j);
    assert frames[..j + k][..j] == frames[..j] && frames[..j + k][j..] == frames[j..][..k];
  }

  /** Recovery of an overfull buffer that starts at frame `j`: it removes `k` lossy frames. */
  lemma Overflows(frames: seq<Bytes>, j: nat, m: nat, max: nat) returns (k: nat)
    requires AllWhole(frames) && AllWithin(frames, max) && j < |frames|
    requires Start(frames, j) <= m <= |Concat(frames)| && m - Start(frames, j) > max
    ensures j + k <= |frames| && Start(frames, j + k) <= m
    ensures forall i :: j <= i < j + k ==> IsLossy(frames[i])
    ensures Recover(Concat(frames)[Start(frames, j)..m], max)
         == Recovery(m - Start(frames, j + k) <= max, Concat(frames)[Start(frames, j + k)..m])
    ensures m - Start(frames, j + k) > max ==> j + k < |frames| && !IsLossy(frames[j + k])
    ensures k == 0 ==> m - Start(frames, j + k) > max
  {
    hide WholeFrame, Concat, IsLossy, Recover, Removed;
    FrameNonempty(frames, j);
    var later, n := frames[j..], m - Start(frames, j);
    StreamFrom(frames, j, m);
    RecoverAligned(later, n, max);
    k := Removed(later, n, max);
    RemovedComplete(later, n, max, k);
    StartFrom(frames, j, k);
    var cut := |Concat(later[..k])|;
    assert Concat(later)[..n][cut..] == Concat(later)[cut..n];
    assert Concat(frames)[Start(frames, j)..m][cut..] == Concat(frames)[Start(frames, j + k)..m];
    forall i | j <= i < j + k
      ensures IsLossy(frames[i])
    {
      assert frames[i] == later[i - j];
    }
  }

  /** Every frame that recovery removes is there to its end. */
  lemma RemovedComplete(frames: seq<Bytes>, n: nat, max: nat, k: nat)
    requires AllWhole(frames) && AllWithin(frames, max) && n <= |Concat(frames)|
    requires k <= |frames| && NeededAndLossy(frames, n, max, k)
    ensures |Concat(frames[..k])| <= n
  {
    hide WholeFrame, Concat, IsLossy;
    if k > 0 {
      StartNext(frames, k - 1);
      assert n - |Concat(frames[..k - 1])| > max;
    } else {
      StartEnds(frames);
    }
  }

  /** Draining a buffer that starts at frame `i`. */
  lemma DrainFrom(frames: seq<Bytes>, i: nat, m: nat, max: nat)
    requires AllWhole(frames) && AllWithin(frames, max) && i <= |frames|
    requires Start(frames, i) <= m <= |Concat(frames)|
    ensures i <= Arrived(frames, m)
    ensures Drain(Concat(frames)[Start(frames, i)..m], max)
         == (Decoded(frames[i..Arrived(frames, m)]), Unfinished(frames, m))
  {
    hide WholeFrame, Concat, Drain, Unfinished, Start, Decoded, Arrived;
    StreamFrom(frames, i, m);
    ArrivedFrom(frames, i, m);
    WithinFrom(frames, i, max);
    DrainPrefix(frames[i..], m - Start(frames, i), max);
    var a := Arrived(frames[i..], m - Start(frames, i));
    assert frames[i..][..a] == frames[i..i + a];
  }

  /** What is reported for frames `i` to `j` of a stream. */
  function ReportsOf(frames: seq<Bytes>, i: nat, j: nat): seq<Event>
    requires AllWhole(frames) && i <= j <= |frames|
  {
    var part := frames[i..j];
    assert forall x :: 0 <= x < |part| ==> part[x] == frames[i + x];
    Decoded(part)
  }

  predicate LossyBetween(frames: seq<Bytes>, i: nat, j: nat)
    requires AllWhole(frames) && i <= j <= |frames|
  {
    forall x :: i <= x < j ==> IsLossy(frames[x])
  }

  predicate ReliableAt(frames: seq<Bytes>, i: nat)
    requires AllWhole(frames)
  {
    i < |frames| && !IsLossy(frames[i])
  }

  /** The frames an overflow drops, and the receiver it leaves. */
  predicate AfterOverflow(frames: seq<Bytes>, r: Receiver, n: nat, m: nat, max: nat, k: nat,
                          t: Receiver)
    requires AllWhole(frames) && n <= m <= |Concat(frames)|
  {
    var i := Arrived(frames, n) + k;
    && i <= Arrived(frames, m) && Start(frames, i) <= m
    && LossyBetween(frames, i - k, i)
    && (t.open <==> m - Start(frames, i) <= max)
    && (!t.open ==> ReliableAt(frames, i) && t.events == r.events)
    && (t.open ==>
          && k > 0
          && t.buffer == Unfinished(frames, m)
          && t.events == r.events + [LossyDropped] + ReportsOf(frames, i, Arrived(frames, m)))
  }

  /** What one overflowing chunk does to a receiver whose buffer starts at frame `j`. */
  lemma FeedOverflows(frames: seq<Bytes>, r: Receiver, n: nat, m: nat, max: nat)
    returns (k: nat)
    requires AllWhole(frames) && AllWithin(frames, max) && n <= m <= |Concat(frames)|
    requires r.open && r.buffer == Unfinished(frames, n) && Arrived(frames, n) < |frames|
    requires |Unfinished(frames, n)| + (m - n) > max
    ensures AfterOverflow(frames, r, n, m, max, k, Feed(r, Concat(frames)[n..m], max))
  {
    hide WholeFrame, Concat, IsLossy, Recover, Drain, Unfinished, Start, Decoded, Arrived;
    ArrivedAt(frames, n);
    var s, j := Concat(frames), Arrived(frames, n);
    assert s[Start(frames, j)..n] + s[n..m] == s[Start(frames, j)..m];
    k := Overflows(frames, j, m, max);
    DrainFrom(frames, j + k, m, max);
  }

  lemma WithinFrom(frames: seq<Bytes>, i: nat, max: nat)
    requires AllWhole(frames) && AllWithin(frames, max) && i <= |frames|
    ensures AllWhole(frames[i..]) && AllWithin(frames[i..], max)
  {
    hide WholeFrame;
  }

  // Every reliable frame arrives

  function ReliableEvent(): Event -> bool
  {
    (e: Event) => e.Received? && !Lossy(e.envelope.qos)
  }

  /** The reliable envelopes among what is reported. */
  function ReliableOf(events: seq<Event>): seq<Event>
  {
    Select(events, ReliableEvent())
  }

  /** Open, and the reliable envelopes of all frames that arrived have been reported. */
  predicate KeepsReliable(frames: seq<Bytes>, r: Receiver, n: nat)
    requires AllWhole(frames) && n <= |Concat(frames)|
  {
    && r.open && r.buffer == Unfinished(frames, n)
    && ReliableOf(r.events) == ReliableOf(Decoded(frames[..Arrived(frames, n)]))
  }

  lemma LossyUnreliable(frames: seq<Bytes>)
    requires AllWhole(frames) && forall i :: 0 <= i < |frames| ==> IsLossy(frames[i])
    ensures ReliableOf(Decoded(frames)) == []
  {
    hide Decode, Select, WholeFrame;
    forall i | 0 <= i < |frames|
      ensures !ReliableEvent()(Decoded(frames)[i])
    {
      assert IsLossy(frames[i]);
    }
    SelectNone(Decoded(frames), ReliableEvent());
  }

  lemma ReliableSplit(frames: seq<Bytes>, i: nat, j: nat)
    requires AllWhole(frames) && i <= j <= |frames|
    ensures AllWhole(frames[..i]) && AllWhole(frames[i..j]) && AllWhole(frames[..j])
    ensures ReliableOf(Decoded(frames[..j]))
         == ReliableOf(Decoded(frames[..i])) + ReliableOf(Decoded(frames[i..j]))
  {
    hide Decode, Select, WholeFrame, Decoded;
    DecodedSplit(frames, i, j);
    SelectConcat(Decoded(frames[..i]), Decoded(frames[i..j]), ReliableEvent());
  }

  lemma FitsKeepsReliable(frames: seq<Bytes>, r: Receiver, n: nat, m: nat, max: nat)
    requires AllWhole(frames) && AllWithin(frames, max) && n <= m <= |Concat(frames)|
    requires KeepsReliable(frames, r, n) && |Unfinished(frames, n)| + (m - n) <= max
    ensures KeepsReliable(frames, Feed(r, Concat(frames)[n..m], max), m)
  {
    hide Decode, Drain, WholeFrame, Select, Unfinished, Decoded, Concat;
    DrainMore(frames, n, m, max);
    var i, j := Arrived(frames, n), Arrived(frames, m);
    ReliableSplit(frames, i, j);
    SelectConcat(r.events, Decoded(frames[i..j]), ReliableEvent());
  }

  lemma OverflowKeepsReliable(frames: seq<Bytes>, r: Receiver, n: nat, m: nat, max: nat)
    requires AllWhole(frames) && AllWithin(frames, max) && n <= m <= |Concat(frames)|
    requires m - n <= MAX_CHUNK
    requires KeepsReliable(frames, r, n) && |Unfinished(frames, n)| + (m - n) > max
    requires forall i :: 0 <= i < |frames| && !IsLossy(frames[i]) ==> HasRoom(frames, i, max)
    ensures KeepsReliable(frames, Feed(r, Concat(frames)[n..m], max), m)
  {
    hide Decode, WholeFrame, Select, Unfinished, Decoded, Concat, Feed, IsLossy, Start;
    ArrivedAt(frames, n);
    StartEnds(frames);
    var j := Arrived(frames, n);
    assert j < |frames|;
    var k := FeedOverflows(frames, r, n, m, max);
    ReliableFits(frames, n, m, max, j, j + k);
    var t := Feed(r, Concat(frames)[n..m], max);
    var a := Arrived(frames, m);
    ReliableSplit(frames, j, j + k);
    ReliableSplit(frames, j + k, a);
    var gone := frames[j..j + k];
    forall i | 0 <= i < |gone|
      ensures IsLossy(gone[i])
    {
      assert gone[i] == frames[j + i];
    }
    LossyUnreliable(gone);
    SelectAppend(r.events, LossyDropped, ReliableEvent());
    SelectConcat(r.events + [LossyDropped], Decoded(frames[j + k..a]), ReliableEvent());
  }

  /** A reliable frame with room, reached by recovery, is within the limit. */
  lemma ReliableFits(frames: seq<Bytes>, n: nat, m: nat, max: nat, j: nat, i: nat)
    requires AllWhole(frames) && n <= m <= |Concat(frames)| && m - n <= MAX_CHUNK
    requires j <= i <= |frames| && j < |frames|
    requires Start(frames, j) <= n < Start(frames, j + 1)
    requires i < |frames| && !IsLossy(frames[i]) ==> HasRoom(frames, i, max)
    ensures i < |frames| && !IsLossy(frames[i]) ==> m - Start(frames, i) <= max
  {
    hide Concat, WholeFrame, IsLossy;
    if i < |frames| {
      StartNext(frames, i);
      StartMonotonic(frames, i + 1, |frames|);
      if i == j {
        StartNext(frames, j);
      } else {
        StartMonotonic(frames, j + 1, i);
      }
    }
  }

  lemma {:induction false} RoomKeepsReliable(frames: seq<Bytes>, chunks: seq<Bytes>, max: nat)
    requires AllWhole(frames) && AllWithin(frames, max) && CutOf(chunks, Concat(frames))
    requires forall i :: 0 <= i < |frames| && !IsLossy(frames[i]) ==> HasRoom(frames, i, max)
    ensures KeepsReliable(frames, FeedAll(chunks, max), |Flatten(chunks)|)
    decreases |chunks|
  {
    hide Feed, WholeFrame, Concat, Unfinished, HasRoom, IsLossy, KeepsReliable;
    if chunks == [] {
      FreshKeepsReliable(frames);
    } else {
      var s := Concat(frames);
      var init, chunk := chunks[..|chunks| - 1], chunks[|chunks| - 1];
      var n, m := |Flatten(init)|, |Flatten(chunks)|;
      assert Flatten(init) == Flatten(chunks)[..n];
      assert s[..m] == Flatten(chunks) && chunk == s[n..m];
      RoomKeepsReliable(frames, init, max);
      if |Unfinished(frames, n)| + (m - n) <= max {
        FitsKeepsReliable(frames, FeedAll(init, max), n, m, max);
      } else {
        OverflowKeepsReliable(frames, FeedAll(init, max), n, m, max);
      }
    }
  }

  lemma FreshKeepsReliable(frames: seq<Bytes>)
    requires AllWhole(frames)
    ensures KeepsReliable(frames, FRESH, 0)
  {
    hide WholeFrame;
    NothingArrived(frames);
  }

  /** A reliable frame without room: the tight cut closes the connection. */
  lemma NoRoomCloses(frames: seq<Bytes>, i: nat, max: nat)
    requires AllWhole(frames) && AllWithin(frames, max) && i < |frames|
    requires !IsLossy(frames[i]) && !HasRoom(frames, i, max)
    ensures CutOf(TightCut(frames, i), Concat(frames))
    ensures !FeedAll(TightCut(frames, i), max).open
  {
    hide Concat, WholeFrame, Feed, Unfinished, Start, TightCut, HasRoom, FeedAll, IsLossy, CutOf,
      Undisturbed;
    TightCutIsCut(frames, i);
    TightCutFeeds(frames, i, max);
    var n := Start(frames, i + 1) - 1;
    var m := n + 1 + Min(MAX_CHUNK - 1, |Concat(frames[i + 1..])|);
    UndisturbedBuffer(frames, n);
    var k := FeedOverflows(frames, Undisturbed(frames, n), n, m, max);
  }

  /** However the stream is cut, the connection stays open. */
  ghost predicate EveryCutOpen(frames: seq<Bytes>, max: nat)
  {
    forall chunks :: CutOf(chunks, Concat(frames)) ==> FeedAll(chunks, max).open
  }

  /**
   Staying open, exactly. For any whole frames within the limit, every cut of the stream into
   chunks of at most 8192 leaves the connection open, if and only if every reliable frame has
   room. Then all reliable frames are reported as they arrive, in order, whatever happens to
   lossy ones.
   */
  lemma ReliableFramesArriveExactly(frames: seq<Bytes>, max: nat)
    requires AllWhole(frames) && AllWithin(frames, max)
    ensures EveryCutOpen(frames, max)
       <==> forall i :: 0 <= i < |frames| && !IsLossy(frames[i]) ==> HasRoom(frames, i, max)
    ensures EveryCutOpen(frames, max) ==>
      forall chunks :: CutOf(chunks, Concat(frames)) ==>
        KeepsReliable(frames, FeedAll(chunks, max), |Flatten(chunks)|)
  {
    hide WholeFrame, Concat, HasRoom, FeedAll, TightCut, IsLossy, Unfinished, Flatten, Select,
      Arrived;
    if forall i :: 0 <= i < |frames| && !IsLossy(frames[i]) ==> HasRoom(frames, i, max) {
      forall chunks | CutOf(chunks, Concat(frames))
        ensures KeepsReliable(frames, FeedAll(chunks, max), |Flatten(chunks)|)
      {
        RoomKeepsReliable(frames, chunks, max);
      }
    } else {
      var i :| 0 <= i < |frames| && !IsLossy(frames[i]) && !HasRoom(frames, i, max);
      NoRoomCloses(frames, i, max);
    }
  }

  /** `k` lossy frames from frame `i` on were dropped and the rest of the first `a` reported, or
      the connection closed on the reliable frame behind them. */
  predicate DropsLossy(frames: seq<Bytes>, i: nat, k: nat, a: nat, r: Receiver)
    requires AllWhole(frames)
  {
    && i + k <= |frames| && LossyBetween(frames, i, i + k)
    && (r.open ==>
          k > 0 && i + k <= a <= |frames|
          && r.events == ReportsOf(frames, 0, i) + [LossyDropped] + ReportsOf(frames, i + k, a))
    && (!r.open ==> ReliableAt(frames, i + k))
  }

  /**
   A lossy frame without room: the tight cut drops it, alone or with lossy frames behind it,
   and everything before and after them is reported; or the connection closes on a reliable
   frame behind them.
   */
  lemma LossyWithoutRoom(frames: seq<Bytes>, i: nat, max: nat) returns (k: nat)
    requires AllWhole(frames) && AllWithin(frames, max) && i < |frames|
    requires IsLossy(frames[i]) && !HasRoom(frames, i, max)
    ensures CutOf(TightCut(frames, i), Concat(frames))
    ensures DropsLossy(frames, i, k, Arrived(frames, |Flatten(TightCut(frames, i))|),
                       FeedAll(TightCut(frames, i), max))
  {
    hide Concat, WholeFrame, Feed, Unfinished, Start, HasRoom, FeedAll, IsLossy, Undisturbed,
      TightCut, Flatten, Decoded, CutOf;
    TightCutIsCut(frames, i);
    TightCutFeeds(frames, i, max);
    var n := Start(frames, i + 1) - 1;
    var m := n + 1 + Min(MAX_CHUNK - 1, |Concat(frames[i + 1..])|);
    UndisturbedBuffer(frames, n);
    UndisturbedEvents(frames, n);
    k := FeedOverflows(frames, Undisturbed(frames, n), n, m, max);
  }

  lemma UndisturbedEvents(frames: seq<Bytes>, n: nat)
    requires AllWhole(frames) && n <= |Concat(frames)|
    ensures Undisturbed(frames, n).events == Decoded(frames[..Arrived(frames, n)])
  {
  }

  // One large frame

  /**
   A reliable frame that leaves less than one chunk of room closes the connection: fed byte by
   byte up to its last byte but one it is in the buffer, with any earlier reports, and any
   chunk of 8192 bytes after it makes recovery give up.
   */
  lemma FrameNearLimitCloses(f: Bytes, chunk: Bytes, events: seq<Event>, max: nat)
    requires WholeFrame(f) && !Lossy(Decode(f).envelope.qos)
    requires max - (MAX_CHUNK - 1) < |f| <= max
    requires |chunk| == MAX_CHUNK
    ensures FeedAll(Bytewise(f[..|f| - 1]), max) == Receiver(f[..|f| - 1], [], true)
    ensures !FeedAll(Bytewise(f[..|f| - 1]) + [chunk], max).open
    ensures !Feed(Receiver(f[..|f| - 1], events, true), chunk, max).open
  {
    hide Decode, HasMagic, U16At, U32At, FeedAll;
    Announces(f);
    AloneBytewise(f, max);
    var b := f[..|f| - 1];
    var full := b + chunk;
    assert full[..|f| - 1] == f[..|f| - 1];
    SameFront(f, full, |f| - 1);
    FeedLast(Bytewise(b), chunk, max);
  }

  lemma FeedLast(chunks: seq<Bytes>, chunk: Bytes, max: nat)
    ensures FeedAll(chunks + [chunk], max) == Feed(FeedAll(chunks, max), chunk, max)
  {
    hide Feed;
    assert (chunks + [chunk])[..|chunks|] == chunks;
  }

  lemma AloneBytewise(f: Bytes, max: nat)
    requires WholeFrame(f) && |f| <= max
    ensures |f| > 0
    ensures FeedAll(Bytewise(f[..|f| - 1]), max) == Receiver(f[..|f| - 1], [], true)
  {
    hide WholeFrame, FeedAll, Undisturbed, Concat, Bytewise;
    FrameNonempty([f], 0);
    AloneConcat(f);
    BytewiseArrives([f], |f| - 1, max);
    AloneUndisturbed(f);
  }

  lemma AloneConcat(f: Bytes)
    ensures Concat([f]) == f
  {
    var frames := [f];
    assert |frames[1..]| == 0;
  }

  lemma AloneUndisturbed(f: Bytes)
    requires WholeFrame(f) && |f| > 0
    ensures |f| - 1 <= |Concat([f])|
    ensures Undisturbed([f], |f| - 1) == Receiver(f[..|f| - 1], [], true)
  {
    hide WholeFrame, Decode, Concat;
    AloneConcat(f);
  }

  /**
   The uniform rule, exactly. In front of frames that leave room for a chunk less a byte, and
   with that many bytes to come, a reliable frame never closes the connection if and only if it
   leaves that room too.
   */
  lemma UniformRoom(f: Bytes, rest: seq<Bytes>, max: nat)
    requires WholeFrame(f) && AllWhole(rest) && !IsLossy(f)
    requires |f| <= max && AllWithin(rest, max - (MAX_CHUNK - 1))
    requires |Concat(rest)| >= MAX_CHUNK - 1
    ensures EveryCutOpen([f] + rest, max) <==> |f| <= max - (MAX_CHUNK - 1)
  {
    hide WholeFrame, IsLossy, Concat, EveryCutOpen;
    var frames := [f] + rest;
    assert frames[1..] == rest;
    ReliableFramesArriveExactly(frames, max);
    assert HasRoom(frames, 0, max) <==> |f| <= max - (MAX_CHUNK - 1);
    forall i | 1 <= i < |frames|
      ensures HasRoom(frames, i, max)
    {
      assert frames[i] == rest[i - 1];
    }
  }
}
