/**
 The sending half: the loop that takes frames and writes them, what becomes of each frame, and the
 other threads that send meanwhile.
 */
module FrameWriter {
  import opened ByteLayout
  import opened Wire
  import opened WireCodec
  import opened Sequences
  import opened SendQueue
  import opened QueueRuns
  import opened RuntimeConnections
  import opened SocketWriter

  // What became of the frames that were taken

  datatype Fate = Sent | Dropped | Broken(written: nat)

  datatype Delivery = Delivery(frame: Frame, fate: Fate)

  /** The bytes one delivery put on the wire. */
  function Contribution(d: Delivery): Bytes
  {
    match d.fate
    case Sent => d.frame.bytes
    case Dropped => []
    case Broken(n) => if n <= |d.frame.bytes| then d.frame.bytes[..n] else d.frame.bytes
  }

  function WireOf(ds: seq<Delivery>): Bytes
  {
    if ds == [] then [] else WireOf(ds[..|ds| - 1]) + Contribution(ds[|ds| - 1])
  }

  function FramesOf(ds: seq<Delivery>): (r: seq<Frame>)
    ensures |r| == |ds|
  {
    if ds == [] then [] else FramesOf(ds[..|ds| - 1]) + [ds[|ds| - 1].frame]
  }

  /** Only lossy frames are dropped, and nothing follows a broken frame. */
  predicate Orderly(ds: seq<Delivery>)
  {
    forall i :: 0 <= i < |ds| ==>
      && (ds[i].fate.Dropped? ==> Lossy(ds[i].frame.qos))
      && (ds[i].fate.Broken? ==> i == |ds| - 1 && ds[i].fate.written <= |ds[i].frame.bytes|)
  }

  predicate EndsBroken(ds: seq<Delivery>)
  {
    ds != [] && ds[|ds| - 1].fate.Broken?
  }

  lemma DeliverOne(ds: seq<Delivery>, d: Delivery)
    ensures WireOf(ds + [d]) == WireOf(ds) + Contribution(d)
    ensures FramesOf(ds + [d]) == FramesOf(ds) + [d.frame]
  {
    assert (ds + [d])[..|ds|] == ds;
  }

  /** All bytes are out: the writer said so, or the socket failed only after the last byte. */
  predicate WentOutWhole(d: Delivery)
  {
    d.fate.Sent? || (d.fate.Broken? && d.fate.written == |d.frame.bytes|)
  }

  /** The frames that went out whole, in order. */
  function WholeFrames(ds: seq<Delivery>): seq<Frame>
  {
    if ds == [] then []
    else
      var r := WholeFrames(ds[..|ds| - 1]);
      if WentOutWhole(ds[|ds| - 1]) then r + [ds[|ds| - 1].frame] else r
  }

  function Joined(frames: seq<Frame>): Bytes
  {
    if frames == [] then [] else Joined(frames[..|frames| - 1]) + frames[|frames| - 1].bytes
  }

  /** The written part of a frame the connection broke on before its end. */
  function Tail(ds: seq<Delivery>): Bytes
  {
    if EndsBroken(ds) && !WentOutWhole(ds[|ds| - 1]) then Contribution(ds[|ds| - 1]) else []
  }

  /**
   Frame boundaries. The wire holds whole frames in take order, followed by at most one
   proper prefix of one frame.
   */
  lemma {:induction false} FrameBoundaries(ds: seq<Delivery>)
    requires Orderly(ds)
    ensures WireOf(ds) == Joined(WholeFrames(ds)) + Tail(ds)
    ensures Tail(ds) != [] ==> EndsBroken(ds) && Tail(ds) < ds[|ds| - 1].frame.bytes
    ensures Subsequence(WholeFrames(ds), FramesOf(ds))
    decreases |ds|
  {
    if ds != [] {
      var init, d := ds[..|ds| - 1], ds[|ds| - 1];
      FrameBoundaries(init);
      assert Tail(init) == [] && WireOf(init) == Joined(WholeFrames(init));
      SubsequenceSkip(WholeFrames(init), FramesOf(init), d.frame);
      SubsequenceKeep(WholeFrames(init), FramesOf(init), d.frame);
      if WentOutWhole(d) {
        assert WholeFrames(ds)[..|WholeFrames(init)|] == WholeFrames(init);
        assert Contribution(d) == d.frame.bytes;
      }
    }
  }

  // The other threads

  /** The frame `Runtime::send` enqueues for an envelope: only ReliableLatest has a key. */
  function FrameOf(e: Envelope, now: u64, key: Bytes): (f: Frame)
    ensures f.qos != ReliableLatest ==> f.latestKey == []
  {
    Frame(Encode(e, true, now), e.qos, if e.qos == ReliableLatest then key else [])
  }

  /** Frames enter the queues by `send` alone: they are printed envelopes. */
  ghost predicate AllFromSend(history: seq<Event>)
  {
    forall i :: 0 <= i < |history| && history[i].Submit? ==> FromSend(history[i].frame)
  }

  ghost predicate FromSend(f: Frame)
  {
    exists e, now, key :: f == FrameOf(e, now, key)
  }

  lemma OneMoreEvent(history: seq<Event>, event: Event)
    requires AllFromSend(history) && (event.Submit? ==> FromSend(event.frame))
    ensures AllFromSend(history + [event])
  {
    hide FrameOf;
  }

  /** Other threads send any number of envelopes, and may stop the connection. */
  method OtherThreads(connection: RuntimeConnection)
    requires connection.Valid()
    modifies connection`queuedBytes, connection`history, connection`running,
      connection.sendQueues
    ensures connection.Valid()
    ensures old(connection.history) <= connection.history
    ensures connection.Reached().taken == old(connection.Reached().taken)
    ensures AllFromSend(old(connection.history)) ==> AllFromSend(connection.history)
    ensures Takes(connection.history) == Takes(old(connection.history))
    ensures !old(connection.running) ==> !connection.running
  {
    hide Takes;
    var count :| 0 <= count;
    for i := 0 to count
      invariant connection.Valid() && connection.running == old(connection.running)
      invariant old(connection.history) <= connection.history
      invariant connection.Reached().taken == old(connection.Reached().taken)
      invariant AllFromSend(old(connection.history)) ==> AllFromSend(connection.history)
      invariant Takes(connection.history) == Takes(old(connection.history))
    {
      var envelope: Envelope, now: u64, key: Bytes := *, *, *;
      var frame := FrameOf(envelope, now, key);
      connection.Step(Submit(frame));
      TakesMore(connection.history, Submit(frame));
      if AllFromSend(old(connection.history)) {
        OneMoreEvent(connection.history, Submit(frame));
      }
      var accepted := connection.Enqueue(frame.bytes, frame.qos, frame.latestKey);
    }
    var stop: bool := *;
    if stop {
      connection.Step(Stop);
      TakesMore(connection.history, Stop);
      connection.Stop();
    }
  }

  /** What one delivery must be like. */
  predicate Allowed(d: Delivery)
  {
    && (d.fate.Dropped? ==> Lossy(d.frame.qos))
    && (d.fate.Broken? ==> d.fate.written <= |d.frame.bytes|)
  }

  /**
   What becomes of a frame after these exchanges: sent if it is complete, dropped if the writer
   was congested before the first byte of a BestEffort or Bulk frame, and broken on otherwise.
   */
  function FateOf(f: Frame, calls: seq<Call>): Fate
  {
    var status := Verdict(f.bytes, 1000, calls);
    if status == Complete then Sent
    else if status == Congested && SentBy(calls) == 0 && (f.qos == BestEffort || f.qos == Bulk)
    then Dropped
    else Broken(SentBy(calls))
  }

  /** How often the loop looked for a frame. */
  function Takes(history: seq<Event>): nat
  {
    if history == [] then 0
    else Takes(history[..|history| - 1]) + if history[|history| - 1].TakeNext? then 1 else 0
  }

  lemma TakesMore(history: seq<Event>, event: Event)
    ensures Takes(history + [event]) == Takes(history) + if event.TakeNext? then 1 else 0
  {
    assert (history + [event])[..|history|] == history;
  }

  /** One taken frame: written, dropped or broken on, as the loop body decides. */
  method SendFrame(connection: RuntimeConnection, socket: Socket, f: Frame)
    returns (ghost delivery: Delivery, ghost talk: seq<Call>)
    requires connection.Valid()
    modifies connection`queuedBytes, connection`history, connection`running,
      connection.sendQueues, socket
    ensures connection.Valid() && old(connection.history) <= connection.history
    ensures connection.Reached().taken == old(connection.Reached().taken)
    ensures AllFromSend(old(connection.history)) ==> AllFromSend(connection.history)
    ensures !old(connection.running) ==> !connection.running
    ensures delivery.frame == f && Allowed(delivery)
    ensures socket.calls == old(socket.calls) + talk && delivery.fate == FateOf(f, talk)
    ensures Takes(connection.history) == Takes(old(connection.history))
    ensures socket.wire == old(socket.wire) + Contribution(delivery)
    ensures delivery.fate.Broken? ==> !connection.running
  {
    hide Run, Verdict, Takes, Stalls, SentBy, Faulted, OffersRest;
    var status, written;
    status, written, talk := WriteFrameChunks(f.bytes, socket, CONGESTION_RETRY_LIMIT);
    OtherThreads(connection);
    if status == Complete {
      assert f.bytes[..written] == f.bytes;
      return Delivery(f, Sent), talk;
    }
    if status == Congested && written == 0 && Lossy(f.qos) {
      return Delivery(f, Dropped), talk;
    }
    connection.Step(Stop);
    TakesMore(connection.history, Stop);
    connection.Stop();
    return Delivery(f, Broken(written)), talk;
  }

  function AllCalls(talks: seq<seq<Call>>): seq<Call>
  {
    if talks == [] then [] else AllCalls(talks[..|talks| - 1]) + talks[|talks| - 1]
  }

  lemma OneMoreTalk(talks: seq<seq<Call>>, talk: seq<Call>)
    ensures AllCalls(talks + [talk]) == AllCalls(talks) + talk
  {
    assert (talks + [talk])[..|talks|] == talks;
  }

  /** Each frame met the fate its own exchanges with the socket decide. */
  predicate DecidedBy(deliveries: seq<Delivery>, talks: seq<seq<Call>>)
  {
    && |deliveries| == |talks|
    && forall i :: 0 <= i < |talks| ==> deliveries[i].fate == FateOf(deliveries[i].frame, talks[i])
  }

  lemma OneMoreDelivery(ds: seq<Delivery>, talks: seq<seq<Call>>, d: Delivery, talk: seq<Call>)
    requires Orderly(ds) && !EndsBroken(ds) && DecidedBy(ds, talks)
    requires Allowed(d) && d.fate == FateOf(d.frame, talk)
    ensures Orderly(ds + [d]) && DecidedBy(ds + [d], talks + [talk])
    ensures EndsBroken(ds + [d]) <==> d.fate.Broken?
    ensures FramesOf(ds + [d]) == FramesOf(ds) + [d.frame]
    ensures WireOf(ds + [d]) == WireOf(ds) + Contribution(d)
    ensures AllCalls(talks + [talk]) == AllCalls(talks) + talk
  {
    hide FateOf, WireOf, FramesOf, AllCalls, Contribution;
    DeliverOne(ds, d);
    OneMoreTalk(talks, talk);
  }

  lemma NoDeliveries()
    ensures Orderly([]) && DecidedBy([], []) && !EndsBroken([])
    ensures FramesOf([]) == [] && WireOf([]) == [] && AllCalls([]) == []
  {
  }

  /**
   `runtime_send_loop`, observed for any number of iterations while other threads enqueue and
   may stop the connection. Each taken frame is sent whole, or dropped without a byte if it is
   lossy, or breaks the connection, after which nothing more is taken or written; which of these
   is decided by the exchanges with the socket about that frame, `talks`. While the connection
   runs, every iteration looks for a frame.
   */
  method SendLoop(connection: RuntimeConnection, socket: Socket, iterations: nat)
    returns (ghost deliveries: seq<Delivery>, ghost talks: seq<seq<Call>>)
    requires connection.Valid()
    modifies connection`queuedBytes, connection`history, connection`running,
      connection.sendQueues, socket
    ensures connection.Valid() && old(connection.history) <= connection.history
    ensures connection.Reached().taken == old(connection.Reached().taken) + FramesOf(deliveries)
    ensures AllFromSend(old(connection.history)) ==> AllFromSend(connection.history)
    ensures socket.wire == old(socket.wire) + WireOf(deliveries)
    ensures Orderly(deliveries)
    ensures EndsBroken(deliveries) ==> !connection.running
    ensures socket.calls == old(socket.calls) + AllCalls(talks)
    ensures DecidedBy(deliveries, talks)
    ensures connection.running ==>
      Takes(connection.history) == Takes(old(connection.history)) + iterations
  {
    hide Run, Next, Rest, Contribution, Total, Size, Sound, FateOf, Takes, FramesOf, WireOf, Orderly,
      EndsBroken, AllCalls, DecidedBy, AllFromSend, Allowed;
    NoDeliveries();
    deliveries, talks := [], [];
    ghost var before := connection.Reached().taken;
    var rounds := 0;
    while connection.running && rounds < iterations
      invariant connection.Valid() && old(connection.history) <= connection.history
      invariant connection.Reached().taken == before + FramesOf(deliveries)
      invariant AllFromSend(old(connection.history)) ==> AllFromSend(connection.history)
      invariant socket.wire == old(socket.wire) + WireOf(deliveries)
      invariant Orderly(deliveries)
      invariant EndsBroken(deliveries) ==> !connection.running
      invariant socket.calls == old(socket.calls) + AllCalls(talks) && DecidedBy(deliveries, talks)
      invariant rounds <= iterations
      invariant connection.running ==>
        Takes(connection.history) == Takes(old(connection.history)) + rounds
      decreases iterations - rounds
    {
      rounds := rounds + 1;
      OtherThreads(connection);
      if !connection.running {
        continue;
      }
      OtherThreads(connection);
      TakesMore(connection.history, TakeNext);
      if AllFromSend(old(connection.history)) {
        OneMoreEvent(connection.history, TakeNext);
      }
      var frame := connection.TakeNextFrame();
      if frame.Some? {
        ghost var d, talk := SendFrame(connection, socket, frame.value);
        OneMoreDelivery(deliveries, talks, d, talk);
        talks := talks + [talk];
        deliveries := deliveries + [d];
      }
    }
  }
}
