/**
 What the receiver reports on any run of a connection, compared with what the sender's
 queues accepted.
 */
module EndToEnd {
  import opened ByteLayout
  import opened Wire
  import opened WireCodec
  import opened Corruption
  import opened Sequences
  import opened SendQueue
  import opened QueueRuns
  import opened FrameWriter
  import opened Receive
  import opened Framing
  import opened Pipeline

  /** The frames that were not dropped, and so have at least their place on the wire. */
  function Streamed(ds: seq<Delivery>): seq<Frame>
  {
    if ds == [] then []
    else
      var r := Streamed(ds[..|ds| - 1]);
      if ds[|ds| - 1].fate.Dropped? then r else r + [ds[|ds| - 1].frame]
  }

  /** The frames whose bytes the wire is made of, the last one possibly incomplete. */
  function Stream(s: Connection): seq<Frame>
  {
    Streamed(s.deliveries) + InHand(s)
  }

  function BytesOf(frames: seq<Frame>): (r: seq<Bytes>)
    ensures |r| == |frames|
  {
    seq(|frames|, i requires 0 <= i < |frames| => frames[i].bytes)
  }

  // The wire of any run

  lemma {:induction false} EveryWriter(max: nat, steps: seq<Step>)
    ensures WriterGood(RunOf(max, steps))
    decreases |steps|
  {
    hide WriterGood, Pipeline.Next;
    if steps == [] {
      IdleWriter();
    } else {
      EveryWriter(max, steps[..|steps| - 1]);
      WriterStep(RunOf(max, steps[..|steps| - 1]), max, steps[|steps| - 1]);
    }
  }

  lemma IdleWriter()
    ensures WriterGood(IDLE)
  {
  }

  /**
   Frame boundaries on every run. The bytes on the wire are whole frames that were taken, in
   take order, then at most one prefix of a frame: of the one that broke the connection, or of
   the one being written.
   */
  lemma WireBoundaries(max: nat, steps: seq<Step>)
    ensures
      var s := RunOf(max, steps);
      && s.wire == Joined(WholeFrames(s.deliveries)) + Tail(s.deliveries) + Partial(s)
      && (Tail(s.deliveries) == [] || Partial(s) == [])
      && (Tail(s.deliveries) != [] ==>
            EndsBroken(s.deliveries)
            && Tail(s.deliveries) < s.deliveries[|s.deliveries| - 1].frame.bytes)
      && (Partial(s) != [] ==>
            s.writing.Some? && Partial(s) <= s.writing.value.frame.bytes)
      && Subsequence(WholeFrames(s.deliveries), s.queue.taken)
  {
    hide WireOf, Joined, WholeFrames, Subsequence, RunOf;
    var s := RunOf(max, steps);
    EveryWriter(max, steps);
    FrameBoundaries(s.deliveries);
    SubsequenceExtend(WholeFrames(s.deliveries), FramesOf(s.deliveries), InHand(s));
  }

  /** Once a frame was broken off, no continuation writes another byte. */
  lemma {:induction false} BrokenIsFinal(max: nat, steps: seq<Step>, more: seq<Step>)
    requires EndsBroken(RunOf(max, steps).deliveries)
    ensures
      var s, t := RunOf(max, steps), RunOf(max, steps + more);
      && t.wire == s.wire && t.deliveries == s.deliveries && t.queue.taken == s.queue.taken
      && t.accepted == s.accepted && !t.queue.running
    decreases |more|
  {
    hide RunOf, Pipeline.Next;
    if more == [] {
      assert steps + more == steps;
      EveryWriter(max, steps);
    } else {
      var more' := more[..|more| - 1];
      BrokenIsFinal(max, steps, more');
      EveryWriter(max, steps + more');
      OneMoreStep(max, steps + more', more[|more| - 1]);
      assert steps + more == steps + more' + [more[|more| - 1]];
      BrokenStep(RunOf(max, steps + more'), max, more[|more| - 1]);
    }
  }

  lemma BrokenStep(s: Connection, max: nat, step: Step)
    requires WriterGood(s) && EndsBroken(s.deliveries)
    ensures
      var t := Pipeline.Next(s, max, step);
      && t.wire == s.wire && t.deliveries == s.deliveries && t.queue.taken == s.queue.taken
      && t.accepted == s.accepted && !t.queue.running
  {
    hide WireOf, FramesOf, Orderly, Decode, Encode;
  }

  // The wire is a prefix of the stream

  lemma {:induction false} ConcatAppend(frames: seq<Bytes>, f: Bytes)
    ensures Concat(frames + [f]) == Concat(frames) + f
    decreases |frames|
  {
    if frames == [] {
      assert (frames + [f])[1..] == [];
    } else {
      assert (frames + [f])[1..] == frames[1..] + [f];
      ConcatAppend(frames[1..], f);
    }
  }

  lemma BytesOfAppend(frames: seq<Frame>, f: Frame)
    ensures BytesOf(frames + [f]) == BytesOf(frames) + [f.bytes]
    ensures Concat(BytesOf(frames + [f])) == Concat(BytesOf(frames)) + f.bytes
  {
    ConcatAppend(BytesOf(frames), f.bytes);
  }

  /** Without a broken frame at the end, the wire is the stream. */
  lemma {:induction false} WireIsStream(ds: seq<Delivery>)
    requires Orderly(ds)
    ensures WireOf(ds) <= Concat(BytesOf(Streamed(ds)))
    ensures !EndsBroken(ds) ==> WireOf(ds) == Concat(BytesOf(Streamed(ds)))
    decreases |ds|
  {
    hide Concat, BytesOf;
    if ds == [] {
      EmptyConcat();
    } else {
      var init, d := ds[..|ds| - 1], ds[|ds| - 1];
      WireIsStream(init);
      BytesOfAppend(Streamed(init), d.frame);
      assert Contribution(d) <= d.frame.bytes;
    }
  }

  lemma EmptyConcat()
    ensures Concat(BytesOf([])) == []
  {
  }

  lemma WirePrefixOfStream(s: Connection)
    requires WriterGood(s)
    ensures s.wire <= Concat(BytesOf(Stream(s)))
  {
    hide WireOf, Streamed, Concat, BytesOf;
    WireIsStream(s.deliveries);
    if s.writing.Some? {
      BytesOfAppend(Streamed(s.deliveries), s.writing.value.frame);
    } else {
      assert Streamed(s.deliveries) + [] == Streamed(s.deliveries);
    }
  }

  // The stream against what was taken

  lemma {:induction false} StreamedThins(ds: seq<Delivery>)
    requires Orderly(ds)
    ensures Subsequence(Streamed(ds), FramesOf(ds))
    decreases |ds|
  {
    if ds != [] {
      var init, d := ds[..|ds| - 1], ds[|ds| - 1];
      StreamedThins(init);
      SubsequenceSkip(Streamed(init), FramesOf(init), d.frame);
      SubsequenceKeep(Streamed(init), FramesOf(init), d.frame);
    }
  }

  /** Frames of a kind that is never lossy are all streamed. */
  lemma {:induction false} ReliableStreamed(ds: seq<Delivery>, keep: Frame -> bool)
    requires Orderly(ds)
    requires forall f: Frame :: keep(f) ==> !Lossy(f.qos)
    ensures Select(Streamed(ds), keep) == Select(FramesOf(ds), keep)
    decreases |ds|
  {
    hide Select;
    if ds == [] {
      EmptySelect(keep);
    } else {
      var init, d := ds[..|ds| - 1], ds[|ds| - 1];
      ReliableStreamed(init, keep);
      SelectAppend(Streamed(init), d.frame, keep);
      SelectAppend(FramesOf(init), d.frame, keep);
    }
  }

  lemma EmptySelect<T>(keep: T -> bool)
    ensures Select([], keep) == []
  {
  }

  /** Thinning first or selecting first. */
  lemma {:induction false} SelectThins<T>(a: seq<T>, b: seq<T>, keep: T -> bool)
    requires Subsequence(a, b)
    ensures Subsequence(Select(a, keep), Select(b, keep))
    decreases |b|
  {
    if a != [] {
      var b', x := b[..|b| - 1], b[|b| - 1];
      assert b == b' + [x];
      SelectAppend(b', x, keep);
      if Subsequence(a, b') {
        SelectThins(a, b', keep);
        SubsequenceSkip(Select(a, keep), Select(b', keep), x);
      } else {
        var a' := a[..|a| - 1];
        assert a == a' + [x];
        SelectAppend(a', x, keep);
        SelectThins(a', b', keep);
        SubsequenceKeep(Select(a', keep), Select(b', keep), x);
      }
    }
  }

  lemma StreamSelects(s: Connection, keep: Frame -> bool)
    requires WriterGood(s)
    ensures Subsequence(Select(Stream(s), keep), Select(s.queue.taken, keep))
    ensures (forall f: Frame :: keep(f) ==> !Lossy(f.qos)) ==>
      Select(Stream(s), keep) == Select(s.queue.taken, keep)
  {
    hide Subsequence, Select, Streamed, FramesOf;
    StreamedThins(s.deliveries);
    if s.writing.Some? {
      SubsequenceKeep(Streamed(s.deliveries), FramesOf(s.deliveries), s.writing.value.frame);
      SelectAppend(Streamed(s.deliveries), s.writing.value.frame, keep);
      SelectAppend(FramesOf(s.deliveries), s.writing.value.frame, keep);
    } else {
      assert Streamed(s.deliveries) + [] == Streamed(s.deliveries);
      assert FramesOf(s.deliveries) + [] == FramesOf(s.deliveries);
    }
    SelectThins(Stream(s), s.queue.taken, keep);
    if forall f: Frame :: keep(f) ==> !Lossy(f.qos) {
      ReliableStreamed(s.deliveries, keep);
    }
  }

  // What the receiver has seen

  /** The frames the receiver has read to the end. */
  function ReceivedFrames(s: Connection): seq<Frame>
  {
    Stream(s)[..Arrived(BytesOf(Stream(s)), |Flatten(s.chunks)|)]
  }

  /** What it reports for them. */
  function Reports(frames: seq<Frame>, bound: int): (r: seq<Receive.Event>)
    requires AllGenuine(frames, bound)
    ensures |r| == |frames|
  {
    seq(|frames|, i requires 0 <= i < |frames| => Received(Decode(frames[i].bytes).envelope))
  }

  lemma StreamGenuine(s: Connection, bound: int)
    requires WriterGood(s) && FramesGood(s, bound)
    ensures AllGenuine(Stream(s), bound)
  {
    hide Genuine, Decode, Streamed, FramesOf;
    StreamedMembers(s.deliveries);
    var earlier := FramesOf(s.deliveries);
    assert forall i :: 0 <= i < |earlier| ==> earlier[i] == s.queue.taken[i];
    forall i | 0 <= i < |Stream(s)|
      ensures Genuine(Stream(s)[i], bound)
    {
      if i < |Streamed(s.deliveries)| {
        assert Stream(s)[i] in earlier;
      } else {
        assert Stream(s)[i] == InHand(s)[0] == s.queue.taken[|earlier|];
      }
    }
  }

  lemma {:induction false} StreamedMembers(ds: seq<Delivery>)
    ensures forall f :: f in Streamed(ds) ==> f in FramesOf(ds)
    decreases |ds|
  {
    if ds != [] {
      StreamedMembers(ds[..|ds| - 1]);
    }
  }

  lemma GenuineBytes(frames: seq<Frame>, bound: int)
    requires AllGenuine(frames, bound)
    ensures AllWhole(BytesOf(frames)) && AllWithin(BytesOf(frames), bound)
    ensures Decoded(BytesOf(frames)) == Reports(frames, bound)
  {
    hide WholeFrame, Decode;
    assert forall i :: 0 <= i < |frames| ==> Genuine(frames[i], bound);
  }

  /**
   The receiver of any run, exactly: it has reported the frames read to the end, in the order
   of the stream, and nothing else; no frame was rejected, no overflow was entered, and the
   connection is still open.
   */
  lemma ReceiverReports(max: nat, receiveMax: nat, steps: seq<Step>)
    requires SmallFrames(steps, receiveMax)
    ensures
      var s := RunOf(max, steps);
      var bound := receiveMax - (MAX_CHUNK - 1);
      && AllGenuine(ReceivedFrames(s), bound)
      && ReceiverOf(s, receiveMax).open
      && ReceiverOf(s, receiveMax).events == Reports(ReceivedFrames(s), bound)
  {
    hide QueueGood, Genuine, WholeFrame, Decode, Stream, BytesOf, Concat, FeedAll, Flatten,
      FramesGood;
    var s := RunOf(max, steps);
    var bound := receiveMax - (MAX_CHUNK - 1);
    EveryConnection(max, receiveMax, steps);
    StreamGenuine(s, bound);
    GenuineBytes(Stream(s), bound);
    WirePrefixOfStream(s);
    var bytes := BytesOf(Stream(s));
    ChunkIndependence(bytes, s.chunks, receiveMax);
    PrefixReports(Stream(s), Arrived(bytes, |Flatten(s.chunks)|), bound);
  }

  lemma PrefixReports(frames: seq<Frame>, n: nat, bound: int)
    requires n <= |frames| && AllGenuine(frames, bound)
    ensures AllGenuine(frames[..n], bound)
    ensures AllWhole(BytesOf(frames)[..n])
    ensures Decoded(BytesOf(frames)[..n]) == Reports(frames[..n], bound)
  {
    hide Genuine;
    GenuineBytes(frames[..n], bound);
    assert BytesOf(frames[..n]) == BytesOf(frames)[..n];
  }

  // Frames received against frames accepted

  /** What was taken of a lossy class thins what was accepted of it. */
  lemma {:induction false} TakenThins(gone: seq<Departure>)
    ensures Subsequence(TakenOf(gone), Frames(gone))
    decreases |gone|
  {
    if gone != [] {
      var init, d := gone[..|gone| - 1], gone[|gone| - 1];
      TakenThins(init);
      SubsequenceSkip(TakenOf(init), Frames(init), d.frame);
      SubsequenceKeep(TakenOf(init), Frames(init), d.frame);
    }
  }

  lemma LossyTaken(accepted: seq<Frame>, taken: seq<Frame>, gone: seq<Departure>,
                   queued: seq<Frame>, qos: QosClass)
    requires Split(accepted, taken, gone, queued, qos)
    ensures Subsequence(OfQos(taken, qos), OfQos(accepted, qos))
  {
    TakenThins(gone);
    SubsequenceExtend(TakenOf(gone), Frames(gone), queued);
  }

  lemma ReceivedOrdered(s: Connection, n: nat)
    requires WriterGood(s) && n <= |Stream(s)|
    requires OfQos(s.queue.accepted, ReliableOrdered)
          == OfQos(s.queue.taken, ReliableOrdered) + s.queue.line.ordered
    ensures OfQos(Stream(s)[..n], ReliableOrdered) <= OfQos(s.queue.accepted, ReliableOrdered)
  {
    hide WriterGood, Stream, Select;
    StreamSelects(s, HasQos(ReliableOrdered));
    SelectPrefix(Stream(s), n, HasQos(ReliableOrdered));
  }

  lemma ReceivedLossy(s: Connection, n: nat, qos: QosClass, gone: seq<Departure>,
                      queued: seq<Frame>)
    requires WriterGood(s) && n <= |Stream(s)|
    requires Split(s.queue.accepted, s.queue.taken, gone, queued, qos)
    ensures Subsequence(OfQos(Stream(s)[..n], qos), OfQos(s.queue.accepted, qos))
  {
    hide WriterGood, Stream, Select, Subsequence;
    var p := HasQos(qos);
    StreamSelects(s, p);
    LossyTaken(s.queue.accepted, s.queue.taken, gone, queued, qos);
    SubsequenceTransitive(OfQos(Stream(s), qos), OfQos(s.queue.taken, qos),
                          OfQos(s.queue.accepted, qos));
    PrefixThins(Stream(s), n, p, OfQos(s.queue.accepted, qos));
  }

  lemma PrefixThins(frames: seq<Frame>, n: nat, keep: Frame -> bool, all: seq<Frame>)
    requires n <= |frames| && Subsequence(Select(frames, keep), all)
    ensures Subsequence(Select(frames[..n], keep), all)
  {
    hide Select, Subsequence;
    SelectPrefix(frames, n, keep);
    var k := |Select(frames[..n], keep)|;
    assert Select(frames, keep)[..k] == Select(frames[..n], keep);
    SubsequencePrefix(Select(frames, keep), all, k);
  }

  lemma ReceivedLatest(s: Connection, n: nat, key: Bytes)
    requires WriterGood(s) && n <= |Stream(s)| && KeyLedger(s.queue, key)
    ensures Subsequence(OfKey(Stream(s)[..n], key), OfKey(s.queue.accepted, key))
  {
    hide WriterGood, Stream, Select, Subsequence;
    var p := HasKey(key);
    StreamSelects(s, p);
    var seen := OfKey(s.queue.taken, key) + OfKey(s.queue.line.latest, key);
    SubsequencePrefix(seen, OfKey(s.queue.accepted, key), |OfKey(s.queue.taken, key)|);
    assert seen[..|OfKey(s.queue.taken, key)|] == OfKey(s.queue.taken, key);
    PrefixThins(Stream(s), n, p, OfKey(s.queue.accepted, key));
  }

  /**
   End to end, in frames. On every run, with every interleaving, every behaviour of the socket
   and every cut of the delivered bytes into chunks: the ReliableOrdered frames received are a
   prefix of those accepted; the BestEffort and Bulk frames received are subsequences of those
   accepted; and so are the ReliableLatest frames of each key.
   */
  lemma FramesEndToEnd(max: nat, receiveMax: nat, steps: seq<Step>)
    requires SmallFrames(steps, receiveMax)
    ensures
      var s := RunOf(max, steps);
      var received, accepted := ReceivedFrames(s), s.queue.accepted;
      && OfQos(received, ReliableOrdered) <= OfQos(accepted, ReliableOrdered)
      && Subsequence(OfQos(received, BestEffort), OfQos(accepted, BestEffort))
      && Subsequence(OfQos(received, Bulk), OfQos(accepted, Bulk))
      && forall key: Bytes :: Subsequence(OfKey(received, key), OfKey(accepted, key))
  {
    hide Sound, FramesGood, TransportGood, Stream, Select, Subsequence, Arrived, Split, KeyLedger,
      BytesOf, WriterGood;
    var s := RunOf(max, steps);
    EveryConnection(max, receiveMax, steps);
    var n := Arrived(BytesOf(Stream(s)), |Flatten(s.chunks)|);
    ReceivedOrdered(s, n);
    ReceivedLossy(s, n, BestEffort, s.queue.goneBestEffort, s.queue.line.bestEffort);
    ReceivedLossy(s, n, Bulk, s.queue.goneBulk, s.queue.line.bulk);
    forall key: Bytes
      ensures Subsequence(OfKey(ReceivedFrames(s), key), OfKey(s.queue.accepted, key))
    {
      ReceivedLatest(s, n, key);
    }
  }

  // Envelopes received against envelopes accepted

  function IsOf(qos: QosClass): Envelope -> bool
  {
    (e: Envelope) => e.qos == qos
  }

  function OfClass(envelopes: seq<Envelope>, qos: QosClass): seq<Envelope>
  {
    Select(envelopes, IsOf(qos))
  }

  /** The envelopes among the reported events, in order. */
  function ReceivedEnvelopes(events: seq<Receive.Event>): seq<Envelope>
  {
    if events == [] then []
    else
      var r := ReceivedEnvelopes(events[..|events| - 1]);
      var last := events[|events| - 1];
      if last.Received? then r + [last.envelope] else r
  }

  lemma {:induction false} ReportsAreEnvelopes(frames: seq<Frame>, bound: int)
    requires AllGenuine(frames, bound)
    ensures ReceivedEnvelopes(Reports(frames, bound)) == Envelopes(frames, bound)
    decreases |frames|
  {
    hide Genuine, Decode;
    if frames != [] {
      var init := frames[..|frames| - 1];
      ReportsAreEnvelopes(init, bound);
      assert Reports(frames, bound)[..|frames| - 1] == Reports(init, bound);
      assert Envelopes(frames, bound)[..|frames| - 1] == Envelopes(init, bound);
    }
  }

  /** Choosing frames of a class and choosing envelopes of that class agree. */
  lemma {:induction false} ClassOfEnvelopes(frames: seq<Frame>, bound: int, qos: QosClass)
    requires AllGenuine(frames, bound)
    ensures AllGenuine(OfQos(frames, qos), bound)
    ensures OfClass(Envelopes(frames, bound), qos) == Envelopes(OfQos(frames, qos), bound)
    decreases |frames|
  {
    hide WholeFrame, Decode;
    if frames != [] {
      var init, f := frames[..|frames| - 1], frames[|frames| - 1];
      ClassOfEnvelopes(init, bound, qos);
      assert Genuine(f, bound);
      assert Envelopes(frames, bound)[..|frames| - 1] == Envelopes(init, bound);
    }
  }

  lemma {:induction false} EnvelopesThin(a: seq<Frame>, b: seq<Frame>, bound: int)
    requires AllGenuine(a, bound) && AllGenuine(b, bound) && Subsequence(a, b)
    ensures Subsequence(Envelopes(a, bound), Envelopes(b, bound))
    decreases |b|
  {
    hide Genuine, Decode;
    if a != [] {
      var a', b' := a[..|a| - 1], b[..|b| - 1];
      assert Envelopes(a, bound)[..|a| - 1] == Envelopes(a', bound);
      assert Envelopes(b, bound)[..|b| - 1] == Envelopes(b', bound);
      if Subsequence(a, b') {
        EnvelopesThin(a, b', bound);
      } else {
        EnvelopesThin(a', b', bound);
      }
    }
  }

  lemma EnvelopesPrefix(a: seq<Frame>, b: seq<Frame>, bound: int)
    requires AllGenuine(a, bound) && AllGenuine(b, bound) && a <= b
    ensures Envelopes(a, bound) <= Envelopes(b, bound)
  {
    hide Genuine, Decode;
  }

  /**
   End to end, in envelopes. On every run of a connection, with every interleaving of sends,
   every behaviour of the socket and every cut of the delivered bytes into chunks of at most
   8192, the ReliableOrdered envelopes the receiver reports are a prefix of those the sender
   accepted, and the BestEffort and Bulk ones are subsequences of those it accepted.
   */
  lemma EnvelopesEndToEnd(max: nat, receiveMax: nat, steps: seq<Step>)
    requires SmallFrames(steps, receiveMax)
    ensures
      var s := RunOf(max, steps);
      var received := ReceivedEnvelopes(ReceiverOf(s, receiveMax).events);
      && OfClass(received, ReliableOrdered) <= OfClass(s.accepted, ReliableOrdered)
      && Subsequence(OfClass(received, BestEffort), OfClass(s.accepted, BestEffort))
      && Subsequence(OfClass(received, Bulk), OfClass(s.accepted, Bulk))
  {
    hide Genuine, Decode, Subsequence, Select, ReceivedFrames, ReceiverOf, QueueGood, WriterGood,
      TransportGood, GenuineLine, RunOf, SmallFrames, ReceivedEnvelopes;
    var s := RunOf(max, steps);
    var bound := receiveMax - (MAX_CHUNK - 1);
    var received := ReceivedFrames(s);
    EveryConnection(max, receiveMax, steps);
    ReceiverReports(max, receiveMax, steps);
    FramesEndToEnd(max, receiveMax, steps);
    ReportsAreEnvelopes(received, bound);
    ClassOfEnvelopes(received, bound, ReliableOrdered);
    ClassOfEnvelopes(s.queue.accepted, bound, ReliableOrdered);
    EnvelopesPrefix(OfQos(received, ReliableOrdered),
                    OfQos(s.queue.accepted, ReliableOrdered), bound);
    ClassOfEnvelopes(received, bound, BestEffort);
    ClassOfEnvelopes(s.queue.accepted, bound, BestEffort);
    EnvelopesThin(OfQos(received, BestEffort), OfQos(s.queue.accepted, BestEffort), bound);
    ClassOfEnvelopes(received, bound, Bulk);
    ClassOfEnvelopes(s.queue.accepted, bound, Bulk);
    EnvelopesThin(OfQos(received, Bulk), OfQos(s.queue.accepted, Bulk), bound);
  }

  // Nothing is held back

  lemma {:induction false} AllArrived(frames: seq<Bytes>)
    ensures Arrived(frames, |Concat(frames)|) == |frames|
  {
    if frames != [] {
      AllArrived(frames[1..]);
    }
  }

  /**
   The prefix is the whole once the queue is empty, the writer is idle on an unbroken
   connection and every written byte was delivered: then every accepted ReliableOrdered
   envelope has been reported.
   */
  lemma EverythingArrives(max: nat, receiveMax: nat, steps: seq<Step>)
    requires SmallFrames(steps, receiveMax)
    requires
      var s := RunOf(max, steps);
      && s.queue.line.ordered == [] && s.writing.None? && !EndsBroken(s.deliveries)
      && Flatten(s.chunks) == s.wire
    ensures
      var s := RunOf(max, steps);
      OfClass(ReceivedEnvelopes(ReceiverOf(s, receiveMax).events), ReliableOrdered)
        == OfClass(s.accepted, ReliableOrdered)
  {
    hide Genuine, Decode, Subsequence, Select, ReceiverOf, Streamed, WireOf, Flatten, Split,
      KeyLedger, TransportGood, GenuineLine, Sound, RunOf, SmallFrames, ReceivedEnvelopes, Concat,
      BytesOf;
    var s := RunOf(max, steps);
    var bound := receiveMax - (MAX_CHUNK - 1);
    EveryConnection(max, receiveMax, steps);
    ReceiverReports(max, receiveMax, steps);
    WireIsStream(s.deliveries);
    assert Streamed(s.deliveries) + [] == Streamed(s.deliveries);
    assert s.wire == Concat(BytesOf(Stream(s)));
    AllArrived(BytesOf(Stream(s)));
    assert ReceivedFrames(s) == Stream(s);
    StreamSelects(s, HasQos(ReliableOrdered));
    ReportsAreEnvelopes(Stream(s), bound);
    ClassOfEnvelopes(Stream(s), bound, ReliableOrdered);
    ClassOfEnvelopes(s.queue.accepted, bound, ReliableOrdered);
    assert OfQos(Stream(s), ReliableOrdered) == OfQos(s.queue.accepted, ReliableOrdered);
  }
}
