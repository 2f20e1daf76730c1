/**
 The connection object: its four queues and their byte counter, updated in place. Each
 method runs under `send_mutex` in the program, so it is one atomic step.
 */
module RuntimeConnections {
  import opened ByteLayout
  import opened Wire
  import opened SendQueue
  import opened QueueRuns

  function QosIndex(qos: QosClass): (i: nat)
    ensures i < 4
  {
    match qos
    case ReliableOrdered => 0
    case ReliableLatest => 1
    case BestEffort => 2
    case Bulk => 3
  }

  class RuntimeConnection {
    const maxQueuedBytes: nat
    const sendQueues: array<seq<Frame>>
    var queuedBytes: nat
    var running: bool

    /** The steps this connection has taken so far. */
    ghost var history: seq<Event>

    /** The queues, as the specification sees them. */
    ghost function Contents(): Line
      reads sendQueues
      requires sendQueues.Length == 4
    {
      Line(sendQueues[0], sendQueues[1], sendQueues[2], sendQueues[3])
    }

    /** The state a run of the recorded steps ends in. */
    ghost function Reached(): QueueState
      reads this
    {
      Run(maxQueuedBytes, history)
    }

    /**
     The connection is where its history leads, so everything proved of every run holds of
     it; the counter is the sum of the queued frames, which keep their invariant.
     */
    ghost predicate Valid()
      reads this, sendQueues
    {
      && sendQueues.Length == 4
      && Contents() == Reached().line
      && running == Reached().running
      && Sound(Contents(), maxQueuedBytes)
      && queuedBytes == Total(Contents())
    }

    constructor (max: nat)
      ensures Valid() && fresh(sendQueues)
      ensures maxQueuedBytes == max && running && queuedBytes == 0
      ensures Contents() == Line([], [], [], []) && history == []
    {
      maxQueuedBytes := max;
      sendQueues := new seq<Frame>[4](_ => []);
      queuedBytes := 0;
      running := true;
      history := [];
    }

    /** One more step of the history is one more step of the run. */
    lemma Step(e: Event)
      ensures Run(maxQueuedBytes, history + [e]) == Apply(Reached(), maxQueuedBytes, e)
    {
      assert (history + [e])[..|history|] == history;
    }

    /**
     Queue accounting, whatever the connection has been through: the counter is within the
     maximum, is zero exactly when all four queues are empty, leaves the reserve to control
     traffic, and the frames are where the ledger says.
     */
    lemma Accounting()
      requires Valid()
      ensures queuedBytes == Total(Contents()) <= maxQueuedBytes
      ensures queuedBytes == 0 <==> Contents() == Line([], [], [], [])
      ensures Size(sendQueues[1]) + Size(sendQueues[2]) + Size(sendQueues[3])
           <= maxQueuedBytes - maxQueuedBytes / RELIABLE_ORDERED_RESERVE_FRACTION
      ensures Ledger(Reached())
    {
      hide Ledger, Run;
      EveryRun(maxQueuedBytes, history);
      TakeSound(Contents(), maxQueuedBytes);
    }

    /** `drop_oldest`. */
    method DropOldest(index: nat) returns (dropped: bool)
      requires sendQueues.Length == 4 && index < 4
      requires Size(sendQueues[index]) <= queuedBytes
      modifies this`queuedBytes, sendQueues
      ensures dropped <==> old(sendQueues[index]) != []
      ensures !dropped ==> queuedBytes == old(queuedBytes)
      ensures forall i :: 0 <= i < 4 && (i != index || !dropped) ==>
                sendQueues[i] == old(sendQueues[i])
      ensures dropped ==>
                && sendQueues[index] == old(sendQueues[index])[1..]
                && queuedBytes == old(queuedBytes) - |old(sendQueues[index])[0].bytes|
    {
      if sendQueues[index] == [] {
        return false;
      }
      queuedBytes := queuedBytes - |sendQueues[index][0].bytes|;
      sendQueues[index] := sendQueues[index][1..];
      return true;
    }

    /**
     `make_room`. `reliable` is what the counter holds beyond the two lossy queues: while a
     frame is being replaced, the counter already leaves that frame out.
     */
    method MakeRoom(bytes: nat, qos: QosClass, ghost reliable: nat) returns (ok: bool)
      requires sendQueues.Length == 4
      requires queuedBytes == reliable + Size(sendQueues[2]) + Size(sendQueues[3])
      modifies this`queuedBytes, sendQueues
      ensures
        var budget := Limit(maxQueuedBytes, qos) - bytes - reliable;
        var e := Evict(old(sendQueues[2]), old(sendQueues[3]), budget);
        && sendQueues[0] == old(sendQueues[0])
        && sendQueues[1] == old(sendQueues[1])
        && sendQueues[2] == old(sendQueues[2])[e.bestEffort..]
        && sendQueues[3] == old(sendQueues[3])[e.bulk..]
        && (ok <==> Size(sendQueues[2]) + Size(sendQueues[3]) <= budget)
      ensures queuedBytes == reliable + Size(sendQueues[2]) + Size(sendQueues[3])
    {
      var limit := Limit(maxQueuedBytes, qos);
      ghost var budget := limit - bytes - reliable;
      ghost var goneBestEffort, goneBulk := 0, 0;
      while queuedBytes + bytes > limit
        invariant goneBestEffort <= |old(sendQueues[2])| && goneBulk <= |old(sendQueues[3])|
        invariant sendQueues[0] == old(sendQueues[0])
        invariant sendQueues[1] == old(sendQueues[1])
        invariant sendQueues[2] == old(sendQueues[2])[goneBestEffort..]
        invariant sendQueues[3] == old(sendQueues[3])[goneBulk..]
        invariant queuedBytes == reliable + Size(sendQueues[2]) + Size(sendQueues[3])
        invariant
          var e := Evict(sendQueues[2], sendQueues[3], budget);
          Evict(old(sendQueues[2]), old(sendQueues[3]), budget)
            == Eviction(goneBestEffort + e.bestEffort, goneBulk + e.bulk)
        decreases |sendQueues[2]| + |sendQueues[3]|
      {
        var dropped := DropOldest(3);
        if dropped {
          goneBulk := goneBulk + 1;
          continue;
        }
        dropped := DropOldest(2);
        if dropped {
          goneBestEffort := goneBestEffort + 1;
          continue;
        }
        return false;
      }
      return true;
    }

    /** The search of `runtime_enqueue` for a queued frame with the same key. */
    method FindQueued(key: Bytes) returns (found: Option<nat>)
      requires sendQueues.Length == 4
      ensures found == FindKey(sendQueues[1], key)
    {
      var queue := sendQueues[1];
      for i := 0 to |queue|
        invariant forall j :: 0 <= j < i ==> queue[j].latestKey != key
      {
        if queue[i].latestKey == key {
          return Some(i);
        }
      }
      return None;
    }

    /** `runtime_enqueue`. */
    method Enqueue(bytes: Bytes, qos: QosClass, latestKey: Bytes) returns (accepted: bool)
      requires Valid()
      modifies this`queuedBytes, this`history, sendQueues
      ensures Valid()
      ensures history == old(history) + [Submit(Frame(bytes, qos, latestKey))]
      ensures
        var o := SendQueue.Enqueue(old(Contents()), maxQueuedBytes, running, bytes, qos, latestKey);
        accepted == o.accepted && Contents() == o.line
    {
      hide Evict, Size, Sound, Run;
      EnqueueSound(Contents(), maxQueuedBytes, running, bytes, qos, latestKey);
      Step(Submit(Frame(bytes, qos, latestKey)));
      history := history + [Submit(Frame(bytes, qos, latestKey))];
      if bytes == [] || !running || |bytes| > Limit(maxQueuedBytes, qos) {
        return false;
      }
      if qos == ReliableLatest && latestKey != [] {
        var found := FindQueued(latestKey);
        if found.Some? {
          accepted := Replace(bytes, latestKey, found.value);
          return;
        }
      }
      var ok := MakeRoom(|bytes|, qos, Reliable(Contents()));
      if !ok {
        return false;
      }
      queuedBytes := queuedBytes + |bytes|;
      var index := QosIndex(qos);
      SizeAppend(sendQueues[index], Frame(bytes, qos, latestKey));
      sendQueues[index] := sendQueues[index] + [Frame(bytes, qos, latestKey)];
      return true;
    }

    /** The branch of `runtime_enqueue` that replaces a queued frame in place. */
    method Replace(bytes: Bytes, latestKey: Bytes, i: nat) returns (accepted: bool)
      requires sendQueues.Length == 4 && queuedBytes == Total(Contents())
      requires bytes != [] && latestKey != []
      requires |bytes| <= Limit(maxQueuedBytes, ReliableLatest)
      requires FindKey(sendQueues[1], latestKey) == Some(i)
      modifies this`queuedBytes, sendQueues
      ensures sendQueues.Length == 4 && queuedBytes == Total(Contents())
      ensures
        var o := Admit(old(Contents()), maxQueuedBytes, bytes, ReliableLatest, latestKey);
        accepted == o.accepted && Contents() == o.line
    {
      hide Evict, Size, Sound;
      var frame := sendQueues[1][i];
      SizeUpdate(sendQueues[1], i, frame.(bytes := bytes));
      queuedBytes := queuedBytes - |frame.bytes|;
      var ok := MakeRoom(|bytes|, ReliableLatest, Reliable(Contents()) - |frame.bytes|);
      if !ok {
        queuedBytes := queuedBytes + |frame.bytes|;
        return false;
      }
      sendQueues[1] := sendQueues[1][i := frame.(bytes := bytes)];
      queuedBytes := queuedBytes + |bytes|;
      return true;
    }

    /** `take_next_frame`. */
    method TakeNextFrame() returns (frame: Option<Frame>)
      requires Valid()
      modifies this`queuedBytes, this`history, sendQueues
      ensures Valid() && history == old(history) + [TakeNext]
      ensures frame == Next(old(Contents())) && Contents() == Rest(old(Contents()))
      ensures Reached().taken
           == old(Reached().taken) + (if frame.Some? then [frame.value] else [])
      ensures running == old(running)
    {
      hide Run, Size;
      TakeSound(Contents(), maxQueuedBytes);
      Step(TakeNext);
      history := history + [TakeNext];
      var index := 0;
      while index < 4 && sendQueues[index] == []
        invariant index <= 4
        invariant forall i :: 0 <= i < index ==> sendQueues[i] == []
      {
        index := index + 1;
      }
      if index == 4 {
        return None;
      }
      var taken := sendQueues[index][0];
      sendQueues[index] := sendQueues[index][1..];
      queuedBytes := queuedBytes - |taken.bytes|;
      return Some(taken);
    }

    /** Any thread may stop the connection. */
    method Stop()
      requires Valid()
      modifies this`running, this`history
      ensures Valid() && !running && history == old(history) + [QueueRuns.Stop]
      ensures Contents() == old(Contents())
    {
      Step(QueueRuns.Stop);
      history := history + [QueueRuns.Stop];
      running := false;
    }
  }
}
