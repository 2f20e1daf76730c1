/**
 One connection end to end: enqueue, strict-priority take, partial writes, a transport that
 delivers a prefix of the written bytes in chunks, re-framing and decoding. A run is any
 interleaving of these steps.
 */
module Pipeline {
  import opened ByteLayout
  import opened Wire
  import opened WireCodec
  import opened Corruption
  import opened Sequences
  import opened SendQueue
  import opened QueueRuns
  import opened SocketWriter
  import opened FrameWriter
  import opened Receive
  import opened Framing

  /** A frame being written, and how many of its bytes are out. */
  datatype Progress = Progress(frame: Frame, offset: nat)

  datatype Connection = Connection(
    queue: QueueState,
    /** The envelopes given to `send` behind `queue.accepted`, with what `encode` fills in. */
    accepted: seq<Envelope>,
    deliveries: seq<Delivery>,
    writing: Option<Progress>,
    wire: Bytes,
    /** What the receiving thread has read, in the chunks it was read in. */
    chunks: seq<Bytes>)

  datatype Step =
    | Send(envelope: Envelope, now: u64, key: Bytes)
    | Take
    | Write(count: nat)
    | Finish
    | DropCongested
    | BreakOff
    | StopRunning
    | Deliver(count: nat)

  const IDLE := Connection(START, [], [], None, [], [])

  function Admitted(q: QueueState, max: nat, f: Frame): bool
  {
    Enqueue(q.line, max, q.running, f.bytes, f.qos, f.latestKey).accepted
  }

  /** `Runtime::send`: encode, then enqueue. What is accepted is the envelope, as auto-filled. */
  function Sending(s: Connection, max: nat, e: Envelope, now: u64, key: Bytes): Connection
  {
    var f := FrameOf(e, now, key);
    if f.bytes == [] then s
    else
      s.(queue := Submitted(s.queue, max, f),
         accepted :=
           if Admitted(s.queue, max, f)
           then s.accepted + [Printed(e, true, now)]
           else s.accepted)
  }

  /** The frame in hand leaves the writer with this fate. */
  function Closed(s: Connection, fate: Fate): Connection
    requires s.writing.Some?
  {
    s.(deliveries := s.deliveries + [Delivery(s.writing.value.frame, fate)], writing := None)
  }

  /** The send loop and the transport, one small step at a time; a step that is not enabled
      changes nothing. */
  function Next(s: Connection, max: nat, step: Step): Connection
  {
    match step
    case Send(e, now, key) => Sending(s, max, e, now, key)
    case Take =>
      if s.writing.Some? || EndsBroken(s.deliveries) || SendQueue.Next(s.queue.line).None? then s
      else
        s.(queue := Took(s.queue),
           writing := Some(Progress(SendQueue.Next(s.queue.line).value, 0)))
    case Write(n) => Written(s, n)
    case Finish =>
      if s.writing.Some? && s.writing.value.offset == |s.writing.value.frame.bytes|
      then Closed(s, Sent)
      else s
    case DropCongested =>
      if s.writing.Some? && s.writing.value.offset == 0 && Lossy(s.writing.value.frame.qos)
      then Closed(s, Dropped)
      else s
    case BreakOff =>
      if s.writing.Some?
      then Closed(s, Broken(s.writing.value.offset)).(queue := s.queue.(running := false))
      else s
    case StopRunning => s.(queue := s.queue.(running := false))
    case Deliver(n) => Delivered(s, n)
  }

  /** The socket accepts some bytes of the chunk it is offered. */
  function Written(s: Connection, n: nat): Connection
  {
    if s.writing.None? || s.writing.value.offset > |s.writing.value.frame.bytes| then s
    else
      var Progress(f, off) := s.writing.value;
      var k := Min(Min(n, WRITE_QUANTUM_BYTES), |f.bytes| - off);
      s.(writing := Some(Progress(f, off + k)), wire := s.wire + f.bytes[off..off + k])
  }

  /** The receiving thread reads some of the bytes that were written. */
  function Delivered(s: Connection, n: nat): Connection
  {
    var from := |Flatten(s.chunks)|;
    if from > |s.wire| then s
    else
      var k := Min(Min(n, MAX_CHUNK), |s.wire| - from);
      s.(chunks := s.chunks + [s.wire[from..from + k]])
  }

  function RunOf(max: nat, steps: seq<Step>): Connection
  {
    if steps == [] then IDLE
    else Next(RunOf(max, steps[..|steps| - 1]), max, steps[|steps| - 1])
  }

  /** The receiver that has read the delivered chunks. */
  function ReceiverOf(s: Connection, receiveMax: nat): Receiver
  {
    FeedAll(s.chunks, receiveMax)
  }

  /** Every frame sent on the run leaves the receiver room for one chunk less a byte. */
  predicate SmallFrames(steps: seq<Step>, receiveMax: nat)
  {
    forall i :: 0 <= i < |steps| && steps[i].Send? ==>
      |Encode(steps[i].envelope, true, steps[i].now)| <= receiveMax - (MAX_CHUNK - 1)
  }

  /** One more step of the list is one more step of the run. */
  lemma OneMoreStep(max: nat, steps: seq<Step>, step: Step)
    ensures RunOf(max, steps + [step]) == Next(RunOf(max, steps), max, step)
  {
    assert (steps + [step])[..|steps|] == steps;
  }

  /** A frame that is empty or beyond the maximum leaves no trace in the queues. */
  lemma RefusedSubmit(q: QueueState, max: nat, f: Frame)
    requires f.bytes == [] || |f.bytes| > max
    ensures Submitted(q, max, f) == q && !Admitted(q, max, f)
  {
    assert q.goneBestEffort + [] == q.goneBestEffort && q.goneBulk + [] == q.goneBulk;
    assert Departures(q.line.bestEffort[..0], false) == [];
    assert Departures(q.line.bulk[..0], false) == [];
  }

  // The queues

  ghost predicate QueueGood(s: Connection, max: nat)
  {
    Sound(s.queue.line, max) && Ledger(s.queue)
  }

  lemma QueueStep(s: Connection, max: nat, step: Step)
    requires QueueGood(s, max)
    ensures QueueGood(Next(s, max, step), max)
  {
    hide Sound, Ledger, Submitted, Took, Written, Delivered, Encode, Admitted, Decode;
    match step
    case Send(e, now, key) =>
      StepKeepsLedger(s.queue, max, Submit(FrameOf(e, now, key)));
    case Take =>
      StepKeepsLedger(s.queue, max, TakeNext);
    case Write(n) => WrittenQueue(s, n);
    case Deliver(n) => DeliveredQueue(s, n);
    case _ =>
      StepKeepsLedger(s.queue, max, Stop);
  }

  lemma WrittenQueue(s: Connection, n: nat)
    ensures Written(s, n).queue == s.queue && Written(s, n).accepted == s.accepted
  {
  }

  lemma DeliveredQueue(s: Connection, n: nat)
    ensures Delivered(s, n).queue == s.queue && Delivered(s, n).accepted == s.accepted
  {
  }

  // The frames

  /** A queued frame is a printed envelope of its own class, of bounded length. */
  predicate Genuine(f: Frame, bound: int)
  {
    && WholeFrame(f.bytes)
    && Decode(f.bytes).envelope.qos == f.qos
    && |f.bytes| <= bound
  }

  predicate AllGenuine(frames: seq<Frame>, bound: int)
  {
    forall i :: 0 <= i < |frames| ==> Genuine(frames[i], bound)
  }

  predicate GenuineLine(l: Line, bound: int)
  {
    AllGenuine(l.ordered, bound) && AllGenuine(l.latest, bound)
    && AllGenuine(l.bestEffort, bound) && AllGenuine(l.bulk, bound)
  }

  function Envelopes(frames: seq<Frame>, bound: int): (r: seq<Envelope>)
    requires AllGenuine(frames, bound)
    ensures |r| == |frames|
  {
    seq(|frames|, i requires 0 <= i < |frames| => Decode(frames[i].bytes).envelope)
  }

  predicate FramesGood(s: Connection, bound: int)
  {
    && GenuineLine(s.queue.line, bound)
    && AllGenuine(s.queue.taken, bound)
    && AllGenuine(s.queue.accepted, bound)
    && s.accepted == Envelopes(s.queue.accepted, bound)
  }

  lemma SentGenuine(e: Envelope, now: u64, key: Bytes, bound: int)
    requires Encode(e, true, now) != [] && |Encode(e, true, now)| <= bound
    ensures Genuine(FrameOf(e, now, key), bound) && Encodable(e)
    ensures Decode(FrameOf(e, now, key).bytes).envelope == Printed(e, true, now)
  {
    hide Decode, Encode, AutoFill, Stamped;
    RoundTrip(e, true, now, []);
    assert Encode(e, true, now) + [] == Encode(e, true, now);
  }

  lemma EnqueueGenuine(q: QueueState, max: nat, f: Frame, bound: int)
    requires Sound(q.line, max) && GenuineLine(q.line, bound) && Genuine(f, bound)
    ensures GenuineLine(Submitted(q, max, f).line, bound)
  {
    hide Genuine, Enqueue, EvictionOf, Size, Limit, Superseded;
    AcceptedLine(q.line, max, q.running, f);
  }

  lemma FramesStep(s: Connection, max: nat, step: Step, bound: int)
    requires QueueGood(s, max) && FramesGood(s, bound)
    requires step.Send? ==> |Encode(step.envelope, true, step.now)| <= bound
    ensures FramesGood(Next(s, max, step), bound)
  {
    hide Genuine, Ledger, Sound, Encode, Written, Delivered, Decode, WholeFrame;
    match step
    case Send(e, now, key) =>
      SendStep(s, max, e, now, key, bound);
    case Take =>
      TakeStep(s, max, bound);
    case Write(n) => WrittenQueue(s, n);
    case Deliver(n) => DeliveredQueue(s, n);
    case _ =>
  }

  lemma SendStep(s: Connection, max: nat, e: Envelope, now: u64, key: Bytes, bound: int)
    requires QueueGood(s, max) && FramesGood(s, bound)
    requires |Encode(e, true, now)| <= bound
    ensures FramesGood(Next(s, max, Send(e, now, key)), bound)
  {
    hide Genuine, Ledger, Sound, Encode, Decode, WholeFrame, Enqueue, EvictionOf, GenuineLine;
    var f := FrameOf(e, now, key);
    if f.bytes != [] {
      SentGenuine(e, now, key, bound);
      EnqueueGenuine(s.queue, max, f, bound);
      GenuineWhole(f, bound);
      if Admitted(s.queue, max, f) {
        assert AllGenuine(s.queue.accepted + [f], bound);
        assert Envelopes(s.queue.accepted + [f], bound)
            == Envelopes(s.queue.accepted, bound) + [Printed(e, true, now)];
      }
    }
  }

  lemma GenuineWhole(f: Frame, bound: int)
    requires Genuine(f, bound)
    ensures WholeFrame(f.bytes) && Decode(f.bytes).envelope.qos == f.qos && |f.bytes| <= bound
  {
  }

  lemma TakeStep(s: Connection, max: nat, bound: int)
    requires FramesGood(s, bound)
    ensures FramesGood(Next(s, max, Take), bound)
  {
    hide Genuine, Decode;
  }

  // The writer

  function InHand(s: Connection): seq<Frame>
  {
    if s.writing.Some? then [s.writing.value.frame] else []
  }

  function Partial(s: Connection): Bytes
  {
    if s.writing.Some? && s.writing.value.offset <= |s.writing.value.frame.bytes|
    then s.writing.value.frame.bytes[..s.writing.value.offset]
    else []
  }

  predicate WriterGood(s: Connection)
  {
    && s.queue.taken == FramesOf(s.deliveries) + InHand(s)
    && s.wire == WireOf(s.deliveries) + Partial(s)
    && Orderly(s.deliveries)
    && (EndsBroken(s.deliveries) ==> !s.queue.running && s.writing.None?)
    && (s.writing.Some? ==> s.writing.value.offset <= |s.writing.value.frame.bytes|)
  }

  lemma CloseWriter(s: Connection, fate: Fate)
    requires WriterGood(s) && s.writing.Some?
    requires fate.Sent? ==> s.writing.value.offset == |s.writing.value.frame.bytes|
    requires fate.Dropped? ==> s.writing.value.offset == 0 && Lossy(s.writing.value.frame.qos)
    requires fate.Broken? ==> s.writing.value.offset == fate.written
    ensures
      var t := Closed(s, fate);
      && t.queue.taken == FramesOf(t.deliveries) + InHand(t)
      && t.wire == WireOf(t.deliveries) + Partial(t)
      && Orderly(t.deliveries)
  {
    hide WireOf, FramesOf;
    var Progress(f, off) := s.writing.value;
    DeliverOne(s.deliveries, Delivery(f, fate));
    assert Partial(s) == Contribution(Delivery(f, fate));
  }

  /** The bytes of the frame in hand that are out, after some more of them. */
  lemma MoreWritten(sent: Bytes, frame: Bytes, off: nat, k: nat)
    requires off + k <= |frame|
    ensures sent + frame[..off] + frame[off..off + k] == sent + frame[..off + k]
  {
    assert frame[..off] + frame[off..off + k] == frame[..off + k];
  }

  lemma WriteStep(s: Connection, n: nat)
    requires WriterGood(s)
    ensures WriterGood(Written(s, n))
  {
    hide WireOf, FramesOf, Orderly, EndsBroken;
    if s.writing.Some? {
      var Progress(f, off) := s.writing.value;
      var k := Min(Min(n, WRITE_QUANTUM_BYTES), |f.bytes| - off);
      MoreWritten(WireOf(s.deliveries), f.bytes, off, k);
    }
  }

  lemma CloseStep(s: Connection, fate: Fate)
    requires WriterGood(s) && s.writing.Some?
    requires fate.Sent? ==> s.writing.value.offset == |s.writing.value.frame.bytes|
    requires fate.Dropped? ==> s.writing.value.offset == 0 && Lossy(s.writing.value.frame.qos)
    requires fate.Broken? ==> s.writing.value.offset == fate.written
    ensures !fate.Broken? ==> WriterGood(Closed(s, fate))
    ensures fate.Broken? ==> WriterGood(Closed(s, fate).(queue := s.queue.(running := false)))
  {
    hide WireOf, FramesOf, Orderly;
    CloseWriter(s, fate);
  }

  lemma TakingStep(s: Connection, max: nat)
    requires WriterGood(s)
    ensures WriterGood(Next(s, max, Take))
  {
    hide WireOf, FramesOf, Orderly;
  }

  lemma WriterStep(s: Connection, max: nat, step: Step)
    requires WriterGood(s)
    ensures WriterGood(Next(s, max, step))
  {
    hide WriterGood, Encode, Enqueue, Decode, Written;
    match step
    case Write(n) => WriteStep(s, n);
    case Take => TakingStep(s, max);
    case Finish =>
      if s.writing.Some? && s.writing.value.offset == |s.writing.value.frame.bytes| {
        CloseStep(s, Sent);
      }
    case DropCongested =>
      if s.writing.Some? && s.writing.value.offset == 0 && Lossy(s.writing.value.frame.qos) {
        CloseStep(s, Dropped);
      }
    case BreakOff =>
      if s.writing.Some? {
        CloseStep(s, Broken(s.writing.value.offset));
      }
    case Send(e, now, key) => QuietStep(s, max, step);
    case Deliver(n) => QuietStep(s, max, step);
    case StopRunning => QuietStep(s, max, step);
  }

  /** Steps that leave the writer alone. */
  lemma QuietStep(s: Connection, max: nat, step: Step)
    requires WriterGood(s) && (step.Send? || step.Deliver? || step.StopRunning?)
    ensures WriterGood(Next(s, max, step))
  {
    hide WireOf, FramesOf, Encode, Enqueue, Decode, Orderly;
  }

  // The transport

  predicate TransportGood(s: Connection)
  {
    Flatten(s.chunks) <= s.wire && ChunksWithin(s.chunks, MAX_CHUNK)
  }

  lemma TransportStep(s: Connection, max: nat, step: Step)
    requires TransportGood(s)
    ensures TransportGood(Next(s, max, step))
  {
    hide Encode, Enqueue, Decode, Took, Submitted;
    if step.Deliver? {
      var from := |Flatten(s.chunks)|;
      var k := Min(Min(step.count, MAX_CHUNK), |s.wire| - from);
      var chunk := s.wire[from..from + k];
      assert (s.chunks + [chunk])[..|s.chunks|] == s.chunks;
      assert s.wire[..from] + chunk == s.wire[..from + k];
    }
  }

  // Every run

  ghost predicate Good(s: Connection, max: nat, bound: int)
  {
    QueueGood(s, max) && FramesGood(s, bound) && WriterGood(s) && TransportGood(s)
  }

  lemma {:induction false} EveryConnection(max: nat, receiveMax: nat, steps: seq<Step>)
    requires SmallFrames(steps, receiveMax)
    ensures Good(RunOf(max, steps), max, receiveMax - (MAX_CHUNK - 1))
    decreases |steps|
  {
    hide QueueGood, FramesGood, WriterGood, TransportGood, Next, Encode;
    var bound := receiveMax - (MAX_CHUNK - 1);
    if steps == [] {
      IdleGood(max, bound);
    } else {
      var init, step := steps[..|steps| - 1], steps[|steps| - 1];
      EveryConnection(max, receiveMax, init);
      var s := RunOf(max, init);
      QueueStep(s, max, step);
      FramesStep(s, max, step, bound);
      WriterStep(s, max, step);
      TransportStep(s, max, step);
    }
  }

  lemma IdleGood(max: nat, bound: int)
    ensures Good(IDLE, max, bound)
  {
    hide Ledger, Sound, Decode, Genuine;
    StartLedger(max);
  }
}
