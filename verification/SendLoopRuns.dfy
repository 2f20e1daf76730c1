/**
 The send loop against the small-step connection: whatever the loop did on a connection with a
 given history is what some run of small steps does, so the end-to-end results speak of it.
 */
module SendLoopRuns {
  import opened ByteLayout
  import opened Wire
  import opened WireCodec
  import opened SendQueue
  import opened QueueRuns
  import opened SocketWriter
  import opened FrameWriter
  import opened RuntimeConnections
  import opened Receive
  import opened Pipeline

  /** The small-step connection stands where the loop does; a frame that broke the connection
      is still in its hand. */
  predicate Stands(s: Connection, max: nat, history: seq<QueueRuns.Event>, ds: seq<Delivery>)
  {
    && s.queue == Run(max, history) && s.chunks == [] && s.wire == WireOf(ds)
    && if EndsBroken(ds) then
         var d := ds[|ds| - 1];
         s.deliveries == ds[..|ds| - 1] && s.writing == Some(Progress(d.frame, d.fate.written))
       else
         s.deliveries == ds && s.writing == None
  }

  // Writing part of a frame takes as many writes as it takes

  lemma {:induction false} WriteUpTo(max: nat, steps: seq<Step>, n: nat) returns (more: seq<Step>)
    requires
      var w := RunOf(max, steps).writing;
      w.Some? && w.value.offset <= n <= |w.value.frame.bytes|
    ensures
      var s := RunOf(max, steps);
      var Progress(f, off) := s.writing.value;
      RunOf(max, more) == s.(writing := Some(Progress(f, n)), wire := s.wire + f.bytes[off..n])
    decreases n - RunOf(max, steps).writing.value.offset
  {
    hide RunOf;
    var s := RunOf(max, steps);
    var Progress(f, off) := s.writing.value;
    if off == n {
      assert s.wire + f.bytes[off..n] == s.wire;
      more := steps;
    } else {
      var k := Min(WRITE_QUANTUM_BYTES, n - off);
      OneMoreStep(max, steps, Write(k));
      more := WriteUpTo(max, steps + [Write(k)], n);
      assert s.wire + f.bytes[off..off + k] + f.bytes[off + k..n] == s.wire + f.bytes[off..n];
    }
  }

  // One event of the history

  lemma SubmitStands(s: Connection, max: nat, history: seq<QueueRuns.Event>, ds: seq<Delivery>,
                     e: Envelope, now: u64, key: Bytes)
    requires Stands(s, max, history, ds)
    ensures Stands(Pipeline.Next(s, max, Send(e, now, key)), max,
                   history + [Submit(FrameOf(e, now, key))], ds)
  {
    hide Encode, Printed, Encodable, Submitted, Enqueue, WireOf;
    var event := Submit(FrameOf(e, now, key));
    assert (history + [event])[..|history|] == history;
    if Encode(e, true, now) == [] {
      RefusedSubmit(s.queue, max, FrameOf(e, now, key));
    }
  }

  lemma StopStands(s: Connection, max: nat, history: seq<QueueRuns.Event>, ds: seq<Delivery>)
    requires Stands(s, max, history, ds)
    ensures Stands(Pipeline.Next(s, max, StopRunning), max, history + [Stop], ds)
  {
    hide WireOf;
    assert (history + [Stop])[..|history|] == history;
  }

  /** A take, the writes of its frame, and what became of it. */
  lemma TakeStands(max: nat, steps: seq<Step>, history: seq<QueueRuns.Event>, ds: seq<Delivery>,
                   d: Delivery) returns (more: seq<Step>)
    requires Stands(RunOf(max, steps), max, history, ds) && Orderly(ds + [d])
    requires SendQueue.Next(Run(max, history).line) == Some(d.frame)
    ensures Stands(RunOf(max, more), max, history + [TakeNext], ds + [d])
  {
    hide RunOf, Run, WireOf, Took;
    var s := RunOf(max, steps);
    NotBroken(ds, d);
    AfterTake(max, history);
    OneMoreStep(max, steps, Take);
    DeliverOne(ds, d);
    var n := |Contribution(d)|;
    more := WriteUpTo(max, steps + [Take], n);
    assert d.frame.bytes[0..n] == Contribution(d);
    if !d.fate.Broken? {
      var last := if d.fate.Sent? then Finish else DropCongested;
      OneMoreStep(max, more, last);
      more := more + [last];
    }
  }

  lemma AfterTake(max: nat, history: seq<QueueRuns.Event>)
    ensures Run(max, history + [TakeNext]) == Took(Run(max, history))
  {
    assert (history + [TakeNext])[..|history|] == history;
  }

  lemma NotBroken(ds: seq<Delivery>, d: Delivery)
    requires Orderly(ds + [d])
    ensures Orderly(ds) && !EndsBroken(ds)
    ensures d.fate.Dropped? ==> Lossy(d.frame.qos)
    ensures d.fate.Broken? ==> d.fate.written <= |d.frame.bytes|
  {
    var all := ds + [d];
    assert forall i :: 0 <= i < |ds| ==> all[i] == ds[i];
    assert all[|ds|] == d;
  }

  // Whole histories

  lemma {:induction false} HistoryStands(max: nat, history: seq<QueueRuns.Event>,
                                         ds: seq<Delivery>) returns (steps: seq<Step>)
    requires AllFromSend(history) && Orderly(ds) && FramesOf(ds) == Run(max, history).taken
    ensures Stands(RunOf(max, steps), max, history, ds)
    decreases |history|
  {
    hide Stands, Submitted, Orderly, FrameOf, RunOf;
    if history == [] {
      NothingStands(max);
      steps := [];
    } else {
      var init, event := history[..|history| - 1], history[|history| - 1];
      assert history == init + [event];
      match event
      case Submit(f) =>
        assert FromSend(f);
        var e, now, key :| f == FrameOf(e, now, key);
        SubmittedTaken(Run(max, init), max, f);
        steps := HistoryStands(max, init, ds);
        SubmitStands(RunOf(max, steps), max, init, ds, e, now, key);
        OneMoreStep(max, steps, Send(e, now, key));
        steps := steps + [Send(e, now, key)];
      case Stop =>
        steps := HistoryStands(max, init, ds);
        StopStands(RunOf(max, steps), max, init, ds);
        OneMoreStep(max, steps, StopRunning);
        steps := steps + [StopRunning];
      case TakeNext =>
        if SendQueue.Next(Run(max, init).line).None? {
          steps := HistoryStands(max, init, ds);
          IdleTakeStands(RunOf(max, steps), max, init, ds);
        } else {
          var ds', d := ds[..|ds| - 1], ds[|ds| - 1];
          assert ds == ds' + [d];
          NotBroken(ds', d);
          DeliverOne(ds', d);
          SameEnds(FramesOf(ds'), d.frame, Run(max, init).taken,
                   SendQueue.Next(Run(max, init).line).value);
          steps := HistoryStands(max, init, ds');
          steps := TakeStands(max, steps, init, ds', d);
        }
    }
  }

  lemma SameEnds(a: seq<Frame>, x: Frame, b: seq<Frame>, y: Frame)
    requires a + [x] == b + [y]
    ensures a == b && x == y
  {
    assert |a + [x]| == |b + [y]|;
    assert a == (a + [x])[..|a|] && b == (b + [y])[..|b|];
    assert (a + [x])[|a|] == x && (b + [y])[|b|] == y;
  }

  lemma NothingStands(max: nat)
    ensures RunOf(max, []) == IDLE && Stands(IDLE, max, [], [])
  {
  }

  lemma SubmittedTaken(s: QueueState, max: nat, f: Frame)
    ensures Submitted(s, max, f).taken == s.taken
  {
  }

  lemma IdleTakeStands(s: Connection, max: nat, history: seq<QueueRuns.Event>, ds: seq<Delivery>)
    requires Stands(s, max, history, ds) && SendQueue.Next(Run(max, history).line).None?
    ensures Stands(s, max, history + [TakeNext], ds)
  {
    hide Run;
    AfterTake(max, history);
  }

  /**
   The loop refines the small steps. Given what `SendLoop` establishes of a connection from its
   start on, and that frames enter by `send`, some run of small steps ends with the same queues,
   the same fate of every frame taken and the same bytes on the wire.
   */
  lemma SendLoopIsRun(max: nat, history: seq<QueueRuns.Event>, ds: seq<Delivery>)
    returns (steps: seq<Step>)
    requires AllFromSend(history) && Orderly(ds) && FramesOf(ds) == Run(max, history).taken
    requires EndsBroken(ds) ==> !Run(max, history).running
    ensures
      var s := RunOf(max, steps);
      && s.queue == Run(max, history) && s.deliveries == ds && s.wire == WireOf(ds)
      && s.writing.None? && s.chunks == []
  {
    hide RunOf, Run, WireOf;
    steps := HistoryStands(max, history, ds);
    if EndsBroken(ds) {
      OneMoreStep(max, steps, BreakOff);
      assert ds == ds[..|ds| - 1] + [ds[|ds| - 1]];
      steps := steps + [BreakOff];
    }
  }

  /**
   The same of the loop itself, on a new connection: whatever the other threads send and the
   socket accepts while it runs, some run of small steps does what it did.
   */
  method SendLoopOnNew(connection: RuntimeConnection, socket: Socket, iterations: nat)
    returns (ghost deliveries: seq<Delivery>, ghost steps: seq<Step>)
    requires connection.Valid() && connection.history == [] && socket.wire == []
    modifies connection`queuedBytes, connection`history, connection`running,
      connection.sendQueues, socket
    ensures
      var s := RunOf(connection.maxQueuedBytes, steps);
      && connection.Valid() && s.queue == connection.Reached()
      && s.deliveries == deliveries && s.wire == socket.wire && s.writing.None?
  {
    hide RunOf, Run, WireOf, FramesOf, Orderly;
    NothingLooped(connection.maxQueuedBytes);
    ghost var talks;
    deliveries, talks := SendLoop(connection, socket, iterations);
    steps := SendLoopIsRun(connection.maxQueuedBytes, connection.history, deliveries);
  }

  lemma NothingLooped(max: nat)
    ensures Run(max, []).taken == [] && AllFromSend([])
  {
  }
}
