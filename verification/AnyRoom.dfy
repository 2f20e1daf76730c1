/**
 End to end without the room: with frames of any length the receiver takes at all, overflow may
 drop lossy frames and close the connection, and still what is received thins what was accepted.
 */
module AnyRoom {
  import opened ByteLayout
  import opened Wire
  import opened WireCodec
  import opened Corruption
  import opened Sequences
  import opened SendQueue
  import opened QueueRuns
  import opened FrameWriter
  import opened Receive
  import opened Framing
  import opened Room
  import opened Pipeline
  import opened EndToEnd

  function IsReceived(): Receive.Event -> bool
  {
    (e: Receive.Event) => e.Received?
  }

  // The receiver

  /** Of the first `j` frames every reliable one was reported, and nothing else but lossy ones
      of them, in order; an open receiver is at the end of what arrived. */
  ghost predicate Thinned(frames: seq<Bytes>, r: Receiver, n: nat, j: nat)
    requires AllWhole(frames) && n <= |Concat(frames)|
  {
    && j <= Arrived(frames, n)
    && ReliableOf(r.events) == ReliableOf(ReportsOf(frames, 0, j))
    && Subsequence(Select(r.events, IsReceived()), ReportsOf(frames, 0, j))
    && (r.open ==> j == Arrived(frames, n) && r.buffer == Unfinished(frames, n))
  }

  lemma {:induction false} ThinnedFollowed<T>(a: seq<T>, b: seq<T>, c: seq<T>)
    requires Subsequence(a, b)
    ensures Subsequence(a + c, b + c)
    decreases |c|
  {
    if c == [] {
      assert a + c == a && b + c == b;
    } else {
      var c' := c[..|c| - 1];
      ThinnedFollowed(a, b, c');
      SubsequenceKeep(a + c', b + c', c[|c| - 1]);
      assert a + c == a + c' + [c[|c| - 1]] && b + c == b + c' + [c[|c| - 1]];
    }
  }

  lemma ReportsSplit(frames: seq<Bytes>, i: nat, j: nat)
    requires AllWhole(frames) && i <= j <= |frames|
    ensures ReportsOf(frames, 0, j) == ReportsOf(frames, 0, i) + ReportsOf(frames, i, j)
  {
    hide WholeFrame, Decode;
  }

  lemma ReportsReceived(frames: seq<Bytes>, i: nat, j: nat)
    requires AllWhole(frames) && i <= j <= |frames|
    ensures Select(ReportsOf(frames, i, j), IsReceived()) == ReportsOf(frames, i, j)
  {
    hide WholeFrame, Decode, Select;
    SelectAll(ReportsOf(frames, i, j), IsReceived());
  }

  lemma LossyReports(frames: seq<Bytes>, i: nat, j: nat)
    requires AllWhole(frames) && i <= j <= |frames| && LossyBetween(frames, i, j)
    ensures ReliableOf(ReportsOf(frames, i, j)) == []
  {
    hide WholeFrame, Select, Decoded, IsLossy;
    var part := frames[i..j];
    forall x | 0 <= x < |part|
      ensures WholeFrame(part[x]) && IsLossy(part[x])
    {
      assert part[x] == frames[i + x];
    }
    LossyUnreliable(part);
  }

  /** More reports after some dropped lossy frames. */
  lemma MoreThinned(frames: seq<Bytes>, events: seq<Receive.Event>, more: seq<Receive.Event>,
                    j: nat, i: nat, a: nat)
    requires AllWhole(frames) && j <= i <= a <= |frames| && LossyBetween(frames, j, i)
    requires ReliableOf(events) == ReliableOf(ReportsOf(frames, 0, j))
    requires Subsequence(Select(events, IsReceived()), ReportsOf(frames, 0, j))
    requires more == ReportsOf(frames, i, a) || more == [LossyDropped] + ReportsOf(frames, i, a)
    ensures ReliableOf(events + more) == ReliableOf(ReportsOf(frames, 0, a))
    ensures Subsequence(Select(events + more, IsReceived()), ReportsOf(frames, 0, a))
  {
    hide WholeFrame, Select, Subsequence, ReportsOf, LossyBetween;
    var now := ReportsOf(frames, i, a);
    DropNote(now);
    ReportsSplit(frames, j, i);
    ReportsSplit(frames, i, a);
    LossyReports(frames, j, i);
    ReportsReceived(frames, i, a);
    SelectConcat(events, more, ReliableEvent());
    SelectConcat(events, more, IsReceived());
    SelectConcat(ReportsOf(frames, 0, j), ReportsOf(frames, j, i), ReliableEvent());
    SelectConcat(ReportsOf(frames, 0, i), now, ReliableEvent());
    SubsequenceExtend(Select(events, IsReceived()), ReportsOf(frames, 0, j),
                      ReportsOf(frames, j, i));
    ThinnedFollowed(Select(events, IsReceived()), ReportsOf(frames, 0, i), now);
    assert ReliableOf(ReportsOf(frames, 0, j)) + [] == ReliableOf(ReportsOf(frames, 0, j));
  }

  /** The note that lossy frames were dropped is no envelope. */
  lemma DropNote(now: seq<Receive.Event>)
    ensures ReliableOf([LossyDropped] + now) == ReliableOf(now)
    ensures Select([LossyDropped] + now, IsReceived()) == Select(now, IsReceived())
  {
    hide Select;
    var note: seq<Receive.Event> := [LossyDropped];
    SelectNone(note, ReliableEvent());
    SelectNone(note, IsReceived());
    SelectConcat(note, now, ReliableEvent());
    SelectConcat(note, now, IsReceived());
    assert [] + ReliableOf(now) == ReliableOf(now);
    assert [] + Select(now, IsReceived()) == Select(now, IsReceived());
  }

  lemma DecodedIsReports(frames: seq<Bytes>, i: nat, j: nat)
    requires AllWhole(frames) && i <= j <= |frames|
    ensures AllWhole(frames[i..j]) && Decoded(frames[i..j]) == ReportsOf(frames, i, j)
  {
    hide WholeFrame, Decode;
  }

  lemma NoneLossy(frames: seq<Bytes>, i: nat)
    requires AllWhole(frames) && i <= |frames|
    ensures LossyBetween(frames, i, i)
  {
  }

  lemma FitsThins(frames: seq<Bytes>, r: Receiver, n: nat, m: nat, max: nat)
    requires AllWhole(frames) && AllWithin(frames, max) && n <= m <= |Concat(frames)|
    requires r.open && Thinned(frames, r, n, Arrived(frames, n))
    requires |Unfinished(frames, n)| + (m - n) <= max
    ensures Thinned(frames, Feed(r, Concat(frames)[n..m], max), m, Arrived(frames, m))
  {
    hide Drain, WholeFrame, Select, Unfinished, Decoded, Concat, Subsequence, ReportsOf,
      LossyBetween, Arrived;
    DrainMore(frames, n, m, max);
    var i, j := Arrived(frames, n), Arrived(frames, m);
    DecodedIsReports(frames, i, j);
    NoneLossy(frames, i);
    MoreThinned(frames, r.events, ReportsOf(frames, i, j), i, i, j);
  }

  lemma OverflowThins(frames: seq<Bytes>, r: Receiver, n: nat, m: nat, max: nat)
    returns (j: nat)
    requires AllWhole(frames) && AllWithin(frames, max) && n <= m <= |Concat(frames)|
    requires r.open && Thinned(frames, r, n, Arrived(frames, n))
    requires |Unfinished(frames, n)| + (m - n) > max
    ensures Thinned(frames, Feed(r, Concat(frames)[n..m], max), m, j)
  {
    hide WholeFrame, Select, Unfinished, Decoded, Concat, Subsequence, ReportsOf, LossyBetween,
      Arrived, Feed, Start, ReliableAt;
    ArrivedAt(frames, n);
    StartEnds(frames);
    var i := Arrived(frames, n);
    var k := FeedOverflows(frames, r, n, m, max);
    var t, a := Feed(r, Concat(frames)[n..m], max), Arrived(frames, m);
    if t.open {
      var more := [LossyDropped] + ReportsOf(frames, i + k, a);
      MoreThinned(frames, r.events, more, i, i + k, a);
      assert r.events + more == r.events + [LossyDropped] + ReportsOf(frames, i + k, a);
      j := a;
    } else {
      j := i;
    }
  }

  lemma {:induction false} ArrivalThins(frames: seq<Bytes>, chunks: seq<Bytes>, max: nat)
    returns (j: nat)
    requires AllWhole(frames) && AllWithin(frames, max) && CutOf(chunks, Concat(frames))
    ensures Thinned(frames, FeedAll(chunks, max), |Flatten(chunks)|, j)
    decreases |chunks|
  {
    hide Feed, WholeFrame, Concat, Unfinished, Thinned;
    if chunks == [] {
      FreshThinned(frames);
      j := 0;
    } else {
      var s := Concat(frames);
      var init, chunk := chunks[..|chunks| - 1], chunks[|chunks| - 1];
      var n, m := |Flatten(init)|, |Flatten(chunks)|;
      assert Flatten(init) == Flatten(chunks)[..n];
      assert s[..m] == Flatten(chunks) && chunk == s[n..m];
      var i := ArrivalThins(frames, init, max);
      var r := FeedAll(init, max);
      OpenThinned(frames, r, n, i);
      if !r.open {
        j := i;
        ClosedThinned(frames, r, chunk, n, m, max, j);
      } else if |Unfinished(frames, n)| + (m - n) <= max {
        FitsThins(frames, r, n, m, max);
        j := Arrived(frames, m);
      } else {
        j := OverflowThins(frames, r, n, m, max);
      }
    }
  }

  lemma OpenThinned(frames: seq<Bytes>, r: Receiver, n: nat, j: nat)
    requires AllWhole(frames) && n <= |Concat(frames)| && Thinned(frames, r, n, j)
    ensures r.open ==> j == Arrived(frames, n)
  {
  }

  lemma ClosedThinned(frames: seq<Bytes>, r: Receiver, chunk: Bytes, n: nat, m: nat, max: nat,
                      j: nat)
    requires AllWhole(frames) && n <= m <= |Concat(frames)| && Thinned(frames, r, n, j)
    requires !r.open
    ensures Thinned(frames, Feed(r, chunk, max), m, j)
  {
    hide WholeFrame, Concat, Unfinished, Select, Subsequence, ReportsOf;
    ArrivesMore(frames, n, m);
  }

  lemma ArrivesMore(frames: seq<Bytes>, n: nat, m: nat)
    requires AllWhole(frames) && n <= m <= |Concat(frames)|
    ensures Arrived(frames, n) <= Arrived(frames, m)
  {
    hide Concat, WholeFrame, Start, Unfinished;
    ArrivedAt(frames, n);
    ArrivedAt(frames, m);
    var i, j := Arrived(frames, n), Arrived(frames, m);
    if j < i {
      StartMonotonic(frames, j + 1, i);
    }
  }

  lemma FreshThinned(frames: seq<Bytes>)
    requires AllWhole(frames)
    ensures Thinned(frames, FRESH, 0, 0)
  {
    hide WholeFrame, Decode;
    NothingArrived(frames);
  }

  // Envelopes among the reports

  /** Envelopes of a reliable class are among the reliable reports. */
  lemma {:induction false} ReliableEnvelopes(events: seq<Receive.Event>, qos: QosClass)
    requires !Lossy(qos)
    ensures OfClass(ReceivedEnvelopes(ReliableOf(events)), qos)
         == OfClass(ReceivedEnvelopes(events), qos)
    decreases |events|
  {
    if events != [] {
      var init, e := events[..|events| - 1], events[|events| - 1];
      ReliableEnvelopes(init, qos);
      assert events == init + [e];
      hide Select;
      SelectAppend(init, e, ReliableEvent());
      EnvelopesAppend(init, e);
      EnvelopesAppend(ReliableOf(init), e);
      if e.Received? {
        SelectAppend(ReceivedEnvelopes(init), e.envelope, IsOf(qos));
        SelectAppend(ReceivedEnvelopes(ReliableOf(init)), e.envelope, IsOf(qos));
      }
    }
  }

  lemma EnvelopesAppend(events: seq<Receive.Event>, e: Receive.Event)
    ensures e.Received? ==>
      ReceivedEnvelopes(events + [e]) == ReceivedEnvelopes(events) + [e.envelope]
    ensures !e.Received? ==> ReceivedEnvelopes(events + [e]) == ReceivedEnvelopes(events)
  {
    assert (events + [e])[..|events|] == events;
  }

  lemma {:induction false} ReceivedOnly(events: seq<Receive.Event>)
    ensures ReceivedEnvelopes(Select(events, IsReceived())) == ReceivedEnvelopes(events)
    decreases |events|
  {
    if events != [] {
      var init, e := events[..|events| - 1], events[|events| - 1];
      ReceivedOnly(init);
      assert events == init + [e];
      hide Select;
      SelectAppend(init, e, IsReceived());
      EnvelopesAppend(init, e);
      EnvelopesAppend(Select(init, IsReceived()), e);
    }
  }

  /** Thinner reports hold thinner envelopes. */
  lemma {:induction false} EnvelopesOfThinner(a: seq<Receive.Event>, b: seq<Receive.Event>)
    requires Subsequence(a, b)
    ensures Subsequence(ReceivedEnvelopes(a), ReceivedEnvelopes(b))
    decreases |b|
  {
    if a != [] {
      var a', b', x := a[..|a| - 1], b[..|b| - 1], b[|b| - 1];
      assert b == b' + [x];
      EnvelopesAppend(b', x);
      if Subsequence(a, b') {
        EnvelopesOfThinner(a, b');
        if x.Received? {
          SubsequenceSkip(ReceivedEnvelopes(a), ReceivedEnvelopes(b'), x.envelope);
        }
      } else {
        assert a == a' + [x];
        EnvelopesAppend(a', x);
        EnvelopesOfThinner(a', b');
        if x.Received? {
          SubsequenceKeep(ReceivedEnvelopes(a'), ReceivedEnvelopes(b'), x.envelope);
        }
      }
    }
  }

  // End to end

  /** Every frame sent on the run is one the receiver takes at all. */
  predicate TakenFrames(steps: seq<Step>, receiveMax: nat)
  {
    forall i :: 0 <= i < |steps| && steps[i].Send? ==>
      |Encode(steps[i].envelope, true, steps[i].now)| <= receiveMax
  }

  /** The first `j` frames of the stream account for what the receiver has reported. */
  lemma ReceiverThins(max: nat, receiveMax: nat, steps: seq<Step>) returns (j: nat)
    requires TakenFrames(steps, receiveMax)
    ensures
      var s := RunOf(max, steps);
      var events := ReceiverOf(s, receiveMax).events;
      && j <= |EndToEnd.Stream(s)| && AllGenuine(EndToEnd.Stream(s)[..j], receiveMax)
      && ReliableOf(events) == ReliableOf(Reports(EndToEnd.Stream(s)[..j], receiveMax))
      && Subsequence(Select(events, IsReceived()), Reports(EndToEnd.Stream(s)[..j], receiveMax))
  {
    hide QueueGood, Genuine, WholeFrame, Decode, EndToEnd.Stream, BytesOf, Concat, FeedAll, Flatten,
      FramesGood, Select, Subsequence, RunOf;
    var s := RunOf(max, steps);
    EveryConnection(max, receiveMax + (MAX_CHUNK - 1), steps);
    StreamGenuine(s, receiveMax);
    GenuineBytes(EndToEnd.Stream(s), receiveMax);
    WirePrefixOfStream(s);
    var bytes := BytesOf(EndToEnd.Stream(s));
    j := ArrivalThins(bytes, s.chunks, receiveMax);
    PrefixReports(EndToEnd.Stream(s), j, receiveMax);
    DecodedIsReports(bytes, 0, j);
    assert bytes[0..j] == bytes[..j];
  }

  /** The reliable classes of what was reported are those of the first `j` frames. */
  lemma ReliableClass(events: seq<Receive.Event>, frames: seq<Frame>, bound: int, qos: QosClass)
    requires AllGenuine(frames, bound) && !Lossy(qos)
    requires ReliableOf(events) == ReliableOf(Reports(frames, bound))
    ensures AllGenuine(OfQos(frames, qos), bound)
    ensures OfClass(ReceivedEnvelopes(events), qos) == Envelopes(OfQos(frames, qos), bound)
  {
    hide Genuine, Select, ReceivedEnvelopes, Reports, Envelopes;
    ReliableEnvelopes(events, qos);
    ReliableEnvelopes(Reports(frames, bound), qos);
    ReportsAreEnvelopes(frames, bound);
    ClassOfEnvelopes(frames, bound, qos);
  }

  lemma LossyClass(events: seq<Receive.Event>, frames: seq<Frame>, bound: int, qos: QosClass)
    requires AllGenuine(frames, bound)
    requires Subsequence(Select(events, IsReceived()), Reports(frames, bound))
    ensures AllGenuine(OfQos(frames, qos), bound)
    ensures Subsequence(OfClass(ReceivedEnvelopes(events), qos),
                        Envelopes(OfQos(frames, qos), bound))
  {
    hide Genuine, Select, ReceivedEnvelopes, Reports, Envelopes, Subsequence;
    ReceivedOnly(events);
    EnvelopesOfThinner(Select(events, IsReceived()), Reports(frames, bound));
    ReportsAreEnvelopes(frames, bound);
    ClassOfEnvelopes(frames, bound, qos);
    SelectThins(ReceivedEnvelopes(events), Envelopes(frames, bound), IsOf(qos));
  }

  /** Frames of the stream against frames accepted, for any part of the stream. */
  lemma StreamAgainstAccepted(max: nat, receiveMax: nat, steps: seq<Step>, j: nat)
    requires TakenFrames(steps, receiveMax) && j <= |EndToEnd.Stream(RunOf(max, steps))|
    ensures
      var s := RunOf(max, steps);
      var part, accepted := EndToEnd.Stream(s)[..j], s.queue.accepted;
      && AllGenuine(accepted, receiveMax) && s.accepted == Envelopes(accepted, receiveMax)
      && OfQos(part, ReliableOrdered) <= OfQos(accepted, ReliableOrdered)
      && Subsequence(OfQos(part, BestEffort), OfQos(accepted, BestEffort))
      && Subsequence(OfQos(part, Bulk), OfQos(accepted, Bulk))
  {
    hide Sound, GenuineLine, TransportGood, EndToEnd.Stream, Select, Subsequence, Split, KeyLedger,
      WriterGood, Genuine, RunOf;
    var s := RunOf(max, steps);
    EveryConnection(max, receiveMax + (MAX_CHUNK - 1), steps);
    ReceivedOrdered(s, j);
    ReceivedLossy(s, j, BestEffort, s.queue.goneBestEffort, s.queue.line.bestEffort);
    ReceivedLossy(s, j, Bulk, s.queue.goneBulk, s.queue.line.bulk);
  }

  /**
   End to end, without the room. On every run in which each frame is one the receiver takes at
   all, overflow or not, the ReliableOrdered envelopes reported are a prefix of those accepted,
   and the BestEffort and Bulk ones are subsequences of those accepted.
   */
  lemma EnvelopesAnyRoom(max: nat, receiveMax: nat, steps: seq<Step>)
    requires TakenFrames(steps, receiveMax)
    ensures
      var s := RunOf(max, steps);
      var received := ReceivedEnvelopes(ReceiverOf(s, receiveMax).events);
      && OfClass(received, ReliableOrdered) <= OfClass(s.accepted, ReliableOrdered)
      && Subsequence(OfClass(received, BestEffort), OfClass(s.accepted, BestEffort))
      && Subsequence(OfClass(received, Bulk), OfClass(s.accepted, Bulk))
  {
    hide Genuine, Subsequence, Select, ReceiverOf, RunOf, TakenFrames, ReceivedEnvelopes,
      EndToEnd.Stream, Reports, Envelopes;
    var s := RunOf(max, steps);
    var events, accepted := ReceiverOf(s, receiveMax).events, s.queue.accepted;
    var j := ReceiverThins(max, receiveMax, steps);
    var part := EndToEnd.Stream(s)[..j];
    StreamAgainstAccepted(max, receiveMax, steps, j);
    ReliableClass(events, part, receiveMax, ReliableOrdered);
    ClassOfEnvelopes(accepted, receiveMax, ReliableOrdered);
    EnvelopesPrefix(OfQos(part, ReliableOrdered), OfQos(accepted, ReliableOrdered), receiveMax);
    LossyAgainst(events, part, accepted, receiveMax, BestEffort);
    LossyAgainst(events, part, accepted, receiveMax, Bulk);
  }

  lemma LossyAgainst(events: seq<Receive.Event>, part: seq<Frame>, accepted: seq<Frame>,
                     bound: int, qos: QosClass)
    requires AllGenuine(part, bound) && AllGenuine(accepted, bound)
    requires Subsequence(Select(events, IsReceived()), Reports(part, bound))
    requires Subsequence(OfQos(part, qos), OfQos(accepted, qos))
    ensures Subsequence(OfClass(ReceivedEnvelopes(events), qos),
                        OfClass(Envelopes(accepted, bound), qos))
  {
    hide Genuine, Select, ReceivedEnvelopes, Reports, Envelopes, Subsequence;
    LossyClass(events, part, bound, qos);
    ClassOfEnvelopes(accepted, bound, qos);
    EnvelopesThin(OfQos(part, qos), OfQos(accepted, qos), bound);
    SubsequenceTransitive(OfClass(ReceivedEnvelopes(events), qos),
                          Envelopes(OfQos(part, qos), bound),
                          Envelopes(OfQos(accepted, qos), bound));
  }

  // Frames the sender refuses anyway

  lemma RefusedSend(s: Connection, max: nat, e: Envelope, now: u64, key: Bytes)
    requires |Encode(e, true, now)| > max
    ensures Pipeline.Next(s, max, Send(e, now, key)) == s
  {
    hide Encode, Submitted, Admitted, Printed, Encodable;
    RefusedSubmit(s.queue, max, FrameOf(e, now, key));
  }

  /** Leaving out the sends of frames beyond the queue's maximum changes nothing. */
  lemma {:induction false} WithoutOversize(max: nat, steps: seq<Step>) returns (fewer: seq<Step>)
    ensures RunOf(max, fewer) == RunOf(max, steps) && TakenFrames(fewer, max)
    ensures forall i :: 0 <= i < |fewer| ==> fewer[i] in steps
    decreases |steps|
  {
    hide Pipeline.Next, Encode;
    if steps == [] {
      fewer := [];
    } else {
      var init, step := steps[..|steps| - 1], steps[|steps| - 1];
      fewer := WithoutOversize(max, init);
      if step.Send? && |Encode(step.envelope, true, step.now)| > max {
        RefusedSend(RunOf(max, init), max, step.envelope, step.now, step.key);
      } else {
        assert (fewer + [step])[..|fewer|] == fewer;
        fewer := fewer + [step];
      }
    }
  }

  /**
   End to end, always. When the receiver's limit is at least the sender's queue limit, as it is
   between endpoints of one configuration, the results hold of every run whatsoever.
   */
  lemma EnvelopesAlways(max: nat, receiveMax: nat, steps: seq<Step>)
    requires max <= receiveMax
    ensures
      var s := RunOf(max, steps);
      var received := ReceivedEnvelopes(ReceiverOf(s, receiveMax).events);
      && OfClass(received, ReliableOrdered) <= OfClass(s.accepted, ReliableOrdered)
      && Subsequence(OfClass(received, BestEffort), OfClass(s.accepted, BestEffort))
      && Subsequence(OfClass(received, Bulk), OfClass(s.accepted, Bulk))
  {
    hide RunOf, ReceiverOf, ReceivedEnvelopes, Subsequence, Select, Encode;
    var fewer := WithoutOversize(max, steps);
    EnvelopesAnyRoom(max, receiveMax, fewer);
  }
}
