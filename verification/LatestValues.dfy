/**
 ReliableLatest traffic end to end, in envelopes. The key of a frame is any function of its
 envelope, as the program's is; per key, what is received thins what was accepted.
 */
module LatestValues {
  import opened ByteLayout
  import opened Wire
  import opened WireCodec
  import opened Corruption
  import opened Sequences
  import opened SendQueue
  import opened QueueRuns
  import opened FrameWriter
  import opened Receive
  import opened Framing
  import opened Pipeline
  import opened EndToEnd
  import opened Room
  import opened AnyRoom

  /** Every ReliableLatest send carries the key of its envelope as it is printed. */
  predicate Keyed(steps: seq<Step>, keyOf: Envelope -> Bytes)
  {
    forall i :: 0 <= i < |steps| && steps[i].Send? && Encodable(steps[i].envelope) ==>
      steps[i].envelope.qos == ReliableLatest ==>
        steps[i].key == keyOf(Printed(steps[i].envelope, true, steps[i].now))
  }

  predicate FrameKeyed(f: Frame, keyOf: Envelope -> Bytes)
  {
    f.qos == ReliableLatest ==>
      WholeFrame(f.bytes) && f.latestKey == keyOf(Decode(f.bytes).envelope)
  }

  predicate FramesKeyed(frames: seq<Frame>, keyOf: Envelope -> Bytes)
  {
    forall i :: 0 <= i < |frames| ==> FrameKeyed(frames[i], keyOf)
  }

  // Accepted frames

  lemma SentKeyed(e: Envelope, now: u64, key: Bytes, keyOf: Envelope -> Bytes)
    requires Encode(e, true, now) != []
    requires Encodable(e) && e.qos == ReliableLatest ==> key == keyOf(Printed(e, true, now))
    ensures FrameKeyed(FrameOf(e, now, key), keyOf)
  {
    hide Encode, Decode, Encodable, Printed;
    SentGenuine(e, now, key, |Encode(e, true, now)|);
  }

  lemma AcceptedStep(s: Connection, max: nat, step: Step, keyOf: Envelope -> Bytes)
    requires FramesKeyed(s.queue.accepted, keyOf) && Keyed([step], keyOf)
    ensures FramesKeyed(Pipeline.Next(s, max, step).queue.accepted, keyOf)
  {
    hide FrameKeyed, Encode, Decode, Encodable, Printed, Enqueue, EvictionOf, Written, Delivered;
    match step
    case Send(e, now, key) =>
      assert [step][0] == step;
      if Encode(e, true, now) != [] {
        SentKeyed(e, now, key, keyOf);
      }
    case Write(n) => WrittenQueue(s, n);
    case Deliver(n) => DeliveredQueue(s, n);
    case _ =>
  }

  lemma {:induction false} AcceptedKeyed(max: nat, steps: seq<Step>, keyOf: Envelope -> Bytes)
    requires Keyed(steps, keyOf)
    ensures FramesKeyed(RunOf(max, steps).queue.accepted, keyOf)
    decreases |steps|
  {
    hide Pipeline.Next, FramesKeyed, Encodable, Printed;
    if steps == [] {
      NothingKeyed(keyOf);
    } else {
      var init, step := steps[..|steps| - 1], steps[|steps| - 1];
      AcceptedKeyed(max, init, keyOf);
      LastKeyed(steps, keyOf);
      AcceptedStep(RunOf(max, init), max, step, keyOf);
    }
  }

  lemma NothingKeyed(keyOf: Envelope -> Bytes)
    ensures FramesKeyed(IDLE.queue.accepted, keyOf)
  {
  }

  lemma LastKeyed(steps: seq<Step>, keyOf: Envelope -> Bytes)
    requires steps != [] && Keyed(steps, keyOf)
    ensures Keyed([steps[|steps| - 1]], keyOf) && Keyed(steps[..|steps| - 1], keyOf)
  {
    hide Encodable, Printed;
  }

  // Received frames

  lemma {:induction false} SelectMembers<T(!new)>(s: seq<T>, keep: T -> bool, x: T)
    ensures x in Select(s, keep) <==> x in s && keep(x)
    decreases |s|
  {
    if s != [] {
      SelectMembers(s[..|s| - 1], keep, x);
      assert s == s[..|s| - 1] + [s[|s| - 1]];
    }
  }

  lemma {:induction false} SubsequenceMember<T(!new)>(a: seq<T>, b: seq<T>, x: T)
    requires Subsequence(a, b) && x in a
    ensures x in b
    decreases |b|
  {
    var b' := b[..|b| - 1];
    assert b == b' + [b[|b| - 1]];
    if Subsequence(a, b') {
      SubsequenceMember(a, b', x);
    } else if x != a[|a| - 1] {
      assert a == a[..|a| - 1] + [a[|a| - 1]];
      SubsequenceMember(a[..|a| - 1], b', x);
    }
  }

  lemma ReceivedKeyed(received: seq<Frame>, accepted: seq<Frame>, keyOf: Envelope -> Bytes)
    requires FramesKeyed(accepted, keyOf)
    requires forall key: Bytes :: Subsequence(OfKey(received, key), OfKey(accepted, key))
    ensures FramesKeyed(received, keyOf)
  {
    hide Subsequence, Select, WholeFrame, Decode;
    forall i | 0 <= i < |received|
      ensures FrameKeyed(received[i], keyOf)
    {
      var f := received[i];
      if f.qos == ReliableLatest {
        SelectMembers(received, HasKey(f.latestKey), f);
        SubsequenceMember(OfKey(received, f.latestKey), OfKey(accepted, f.latestKey), f);
        SelectMembers(accepted, HasKey(f.latestKey), f);
      }
    }
  }

  // Envelopes

  function IsLatest(keyOf: Envelope -> Bytes, key: Bytes): Envelope -> bool
  {
    (e: Envelope) => e.qos == ReliableLatest && keyOf(e) == key
  }

  /** The ReliableLatest envelopes of one key, in order. */
  function LatestOf(envelopes: seq<Envelope>, keyOf: Envelope -> Bytes, key: Bytes): seq<Envelope>
  {
    Select(envelopes, IsLatest(keyOf, key))
  }

  /** Choosing frames by key and choosing envelopes by key agree. */
  lemma {:induction false} LatestOfEnvelopes(frames: seq<Frame>, bound: int,
                                             keyOf: Envelope -> Bytes, key: Bytes)
    requires AllGenuine(frames, bound) && FramesKeyed(frames, keyOf)
    ensures AllGenuine(OfKey(frames, key), bound)
    ensures LatestOf(Envelopes(frames, bound), keyOf, key) == Envelopes(OfKey(frames, key), bound)
    decreases |frames|
  {
    hide WholeFrame, Decode;
    if frames != [] {
      var init, f := frames[..|frames| - 1], frames[|frames| - 1];
      LatestOfEnvelopes(init, bound, keyOf, key);
      assert Genuine(f, bound) && FrameKeyed(f, keyOf);
      assert Envelopes(frames, bound)[..|frames| - 1] == Envelopes(init, bound);
    }
  }

  /** The reports of a key are the envelopes of that key in the part of the stream they come
      from. */
  lemma LatestOfPart(events: seq<Receive.Event>, part: seq<Frame>, bound: int,
                     keyOf: Envelope -> Bytes, key: Bytes)
    requires AllGenuine(part, bound)
    requires ReliableOf(events) == ReliableOf(Reports(part, bound))
    ensures LatestOf(ReceivedEnvelopes(events), keyOf, key)
         == LatestOf(Envelopes(part, bound), keyOf, key)
  {
    hide Genuine, Select, ReceivedEnvelopes, Reports, Envelopes;
    ReliableClass(events, part, bound, ReliableLatest);
    ClassOfEnvelopes(part, bound, ReliableLatest);
    SelectTwice(ReceivedEnvelopes(events), IsOf(ReliableLatest), IsLatest(keyOf, key));
    SelectTwice(Envelopes(part, bound), IsOf(ReliableLatest), IsLatest(keyOf, key));
  }

  lemma LatestAgainstAccepted(max: nat, receiveMax: nat, steps: seq<Step>, j: nat)
    requires TakenFrames(steps, receiveMax) && j <= |EndToEnd.Stream(RunOf(max, steps))|
    ensures
      var s := RunOf(max, steps);
      forall key: Bytes ::
        Subsequence(OfKey(EndToEnd.Stream(s)[..j], key), OfKey(s.queue.accepted, key))
  {
    hide Sound, FramesGood, TransportGood, EndToEnd.Stream, Select, Subsequence, Split, KeyLedger,
      WriterGood, RunOf;
    var s := RunOf(max, steps);
    EveryConnection(max, receiveMax + (MAX_CHUNK - 1), steps);
    forall key: Bytes
      ensures Subsequence(OfKey(EndToEnd.Stream(s)[..j], key), OfKey(s.queue.accepted, key))
    {
      ReceivedLatest(s, j, key);
    }
  }

  /**
   ReliableLatest end to end. On every run in which each frame is one the receiver takes at all,
   overflow or not, and for any key function of the envelopes, the ReliableLatest envelopes
   reported of a key are a subsequence of those accepted of that key.
   */
  lemma LatestEndToEnd(max: nat, receiveMax: nat, steps: seq<Step>, keyOf: Envelope -> Bytes,
                       key: Bytes)
    requires TakenFrames(steps, receiveMax) && Keyed(steps, keyOf)
    ensures
      var s := RunOf(max, steps);
      var received := ReceivedEnvelopes(ReceiverOf(s, receiveMax).events);
      Subsequence(LatestOf(received, keyOf, key), LatestOf(s.accepted, keyOf, key))
  {
    hide Genuine, Decode, Subsequence, Select, ReceiverOf, RunOf, TakenFrames, ReceivedEnvelopes,
      FramesKeyed, Keyed, EndToEnd.Stream, Reports, Envelopes;
    var s := RunOf(max, steps);
    var events, accepted := ReceiverOf(s, receiveMax).events, s.queue.accepted;
    var j := ReceiverThins(max, receiveMax, steps);
    var part := EndToEnd.Stream(s)[..j];
    StreamAgainstAccepted(max, receiveMax, steps, j);
    LatestAgainstAccepted(max, receiveMax, steps, j);
    AcceptedKeyed(max, steps, keyOf);
    ReceivedKeyed(part, accepted, keyOf);
    LatestOfPart(events, part, receiveMax, keyOf, key);
    LatestOfEnvelopes(part, receiveMax, keyOf, key);
    LatestOfEnvelopes(accepted, receiveMax, keyOf, key);
    EnvelopesThin(OfKey(part, key), OfKey(accepted, key), receiveMax);
  }

  /** The same of every run, when the receiver's limit is at least the sender's queue limit. */
  lemma LatestAlways(max: nat, receiveMax: nat, steps: seq<Step>, keyOf: Envelope -> Bytes,
                     key: Bytes)
    requires max <= receiveMax && Keyed(steps, keyOf)
    ensures
      var s := RunOf(max, steps);
      var received := ReceivedEnvelopes(ReceiverOf(s, receiveMax).events);
      Subsequence(LatestOf(received, keyOf, key), LatestOf(s.accepted, keyOf, key))
  {
    hide RunOf, ReceiverOf, ReceivedEnvelopes, Subsequence, Select, Encode, Encodable, Printed;
    var fewer := WithoutOversize(max, steps);
    forall i | 0 <= i < |fewer|
      ensures Keyed([fewer[i]], keyOf)
    {
      var k :| 0 <= k < |steps| && steps[k] == fewer[i];
    }
    assert Keyed(fewer, keyOf) by {
      assert forall i :: 0 <= i < |fewer| ==> [fewer[i]][0] == fewer[i];
    }
    LatestEndToEnd(max, receiveMax, fewer, keyOf, key);
  }
}
