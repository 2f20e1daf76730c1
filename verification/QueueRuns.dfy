/**
 Whole runs of one connection's queues. A run is any sequence of enqueue, take and stop
 steps; the state records what was accepted, taken and evicted, and the ledger says how
 these relate at every point of every run.
 */
module QueueRuns {
  import opened ByteLayout
  import opened Wire
  import opened Sequences
  import opened SendQueue

  /** A lossy frame that left its queue, to the wire or to eviction. */
  datatype Departure = Departure(frame: Frame, taken: bool)

  datatype QueueState = QueueState(
    line: Line,
    running: bool,
    accepted: seq<Frame>,
    taken: seq<Frame>,
    goneBestEffort: seq<Departure>,
    goneBulk: seq<Departure>)

  datatype Event = Submit(frame: Frame) | TakeNext | Stop

  const START := QueueState(Line([], [], [], []), true, [], [], [], [])

  function Departures(frames: seq<Frame>, taken: bool): (r: seq<Departure>)
    ensures |r| == |frames|
  {
    seq(|frames|, i requires 0 <= i < |frames| => Departure(frames[i], taken))
  }

  function Submitted(s: QueueState, max: nat, f: Frame): QueueState
  {
    var o := Enqueue(s.line, max, s.running, f.bytes, f.qos, f.latestKey);
    var e := EvictionOf(s.line, max, s.running, f);
    s.(line := o.line,
       accepted := if o.accepted then s.accepted + [f] else s.accepted,
       goneBestEffort := s.goneBestEffort + Departures(s.line.bestEffort[..e.bestEffort], false),
       goneBulk := s.goneBulk + Departures(s.line.bulk[..e.bulk], false))
  }

  /** The frames the enqueue of `f` evicts. */
  function EvictionOf(l: Line, max: nat, running: bool, f: Frame): (e: Eviction)
    ensures e.bestEffort <= |l.bestEffort| && e.bulk <= |l.bulk|
    ensures e == Enqueue(l, max, running, f.bytes, f.qos, f.latestKey).eviction
  {
    if f.bytes == [] || !running || |f.bytes| > Limit(max, f.qos) then Eviction(0, 0)
    else Evict(l.bestEffort, l.bulk, Budget(l, max, f.bytes, f.qos, f.latestKey))
  }

  function Took(s: QueueState): QueueState
  {
    match Next(s.line)
    case None => s
    case Some(f) =>
      s.(line := Rest(s.line),
         taken := s.taken + [f],
         goneBestEffort :=
           if f.qos == BestEffort then s.goneBestEffort + [Departure(f, true)]
           else s.goneBestEffort,
         goneBulk :=
           if f.qos == Bulk then s.goneBulk + [Departure(f, true)] else s.goneBulk)
  }

  function Apply(s: QueueState, max: nat, e: Event): QueueState
  {
    match e
    case Submit(f) => Submitted(s, max, f)
    case TakeNext => Took(s)
    case Stop => s.(running := false)
  }

  function Run(max: nat, events: seq<Event>): QueueState
  {
    if events == [] then START
    else Apply(Run(max, events[..|events| - 1]), max, events[|events| - 1])
  }

  // The ledger

  function HasQos(qos: QosClass): Frame -> bool
  {
    (f: Frame) => f.qos == qos
  }

  function HasKey(key: Bytes): Frame -> bool
  {
    (f: Frame) => f.qos == ReliableLatest && f.latestKey == key
  }

  function OfQos(frames: seq<Frame>, qos: QosClass): seq<Frame>
  {
    Select(frames, HasQos(qos))
  }

  function OfKey(frames: seq<Frame>, key: Bytes): seq<Frame>
  {
    Select(frames, HasKey(key))
  }

  function Frames(gone: seq<Departure>): seq<Frame>
  {
    if gone == [] then [] else Frames(gone[..|gone| - 1]) + [gone[|gone| - 1].frame]
  }

  function TakenOf(gone: seq<Departure>): seq<Frame>
  {
    if gone == [] then []
    else
      var r := TakenOf(gone[..|gone| - 1]);
      if gone[|gone| - 1].taken then r + [gone[|gone| - 1].frame] else r
  }

  /** A lossy queue is an order-preserving split into departed and still queued. */
  predicate Split(accepted: seq<Frame>, taken: seq<Frame>, gone: seq<Departure>,
                  queued: seq<Frame>, qos: QosClass)
  {
    && OfQos(accepted, qos) == Frames(gone) + queued
    && OfQos(taken, qos) == TakenOf(gone)
  }

  /** For one key: what was taken, then what is queued, thins what was accepted and ends with
      the last accepted frame. */
  ghost predicate KeySplit(accepted: seq<Frame>, taken: seq<Frame>, latest: seq<Frame>,
                           key: Bytes)
  {
    var all := OfKey(accepted, key);
    var seen := OfKey(taken, key) + OfKey(latest, key);
    && Subsequence(seen, all)
    && (all != [] ==> seen != [] && seen[|seen| - 1] == all[|all| - 1])
    && (key == [] ==> seen == all)
    && (key != [] ==> |OfKey(latest, key)| <= 1)
  }

  ghost predicate KeyLedger(s: QueueState, key: Bytes)
  {
    KeySplit(s.accepted, s.taken, s.line.latest, key)
  }

  ghost predicate Ledger(s: QueueState)
  {
    && OfQos(s.accepted, ReliableOrdered) == OfQos(s.taken, ReliableOrdered) + s.line.ordered
    && Split(s.accepted, s.taken, s.goneBestEffort, s.line.bestEffort, BestEffort)
    && Split(s.accepted, s.taken, s.goneBulk, s.line.bulk, Bulk)
    && forall key: Bytes :: KeyLedger(s, key)
  }

  // Departures

  lemma {:induction false} FramesConcat(a: seq<Departure>, b: seq<Departure>)
    ensures Frames(a + b) == Frames(a) + Frames(b)
    ensures TakenOf(a + b) == TakenOf(a) + TakenOf(b)
    decreases |b|
  {
    if b == [] {
      assert a + b == a;
    } else {
      var b' := b[..|b| - 1];
      FramesConcat(a, b');
      assert (a + b)[..|a + b| - 1] == a + b';
    }
  }

  lemma {:induction false} FramesOfDepartures(frames: seq<Frame>)
    ensures Frames(Departures(frames, false)) == frames
    ensures TakenOf(Departures(frames, false)) == []
    decreases |frames|
  {
    if frames != [] {
      var init := frames[..|frames| - 1];
      FramesOfDepartures(init);
      assert Departures(frames, false)[..|frames| - 1] == Departures(init, false);
    }
  }

  lemma TakeOne(gone: seq<Departure>, f: Frame)
    ensures Frames(gone + [Departure(f, true)]) == Frames(gone) + [f]
    ensures TakenOf(gone + [Departure(f, true)]) == TakenOf(gone) + [f]
  {
    assert (gone + [Departure(f, true)])[..|gone|] == gone;
  }

  /** Evicting a prefix of a lossy queue keeps its split. */
  lemma EvictSplit(accepted: seq<Frame>, taken: seq<Frame>, gone: seq<Departure>,
                   queued: seq<Frame>, qos: QosClass, n: nat)
    requires n <= |queued| && Split(accepted, taken, gone, queued, qos)
    ensures Split(accepted, taken, gone + Departures(queued[..n], false), queued[n..], qos)
  {
    FramesConcat(gone, Departures(queued[..n], false));
    FramesOfDepartures(queued[..n]);
    assert queued == queued[..n] + queued[n..];
    assert Frames(gone) + queued[..n] + queued[n..] == Frames(gone) + queued;
    assert TakenOf(gone) + [] == TakenOf(gone);
  }

  // Steps keep the ledger

  lemma SelectQos(frames: seq<Frame>, f: Frame, qos: QosClass)
    ensures f.qos == qos ==> OfQos(frames + [f], qos) == OfQos(frames, qos) + [f]
    ensures f.qos != qos ==> OfQos(frames + [f], qos) == OfQos(frames, qos)
  {
    SelectAppend(frames, f, HasQos(qos));
  }

  /** What an accepted enqueue does to the two reliable queues and the tails of the others. */
  lemma AcceptedLine(l: Line, max: nat, running: bool, f: Frame)
    requires Sound(l, max)
    ensures
      var o := Enqueue(l, max, running, f.bytes, f.qos, f.latestKey);
      var e := EvictionOf(l, max, running, f);
      var added := if o.accepted then [f] else [];
      && o.line.ordered == l.ordered + (if f.qos == ReliableOrdered then added else [])
      && o.line.bestEffort
         == l.bestEffort[e.bestEffort..] + (if f.qos == BestEffort then added else [])
      && o.line.bulk == l.bulk[e.bulk..] + (if f.qos == Bulk then added else [])
      && (f.qos != ReliableLatest || !o.accepted ==> o.line.latest == l.latest)
      && (f.qos == ReliableLatest && o.accepted ==>
            var i := Superseded(l, f.qos, f.latestKey);
            o.line.latest == if i.Some? then l.latest[i.value := f] else l.latest + [f])
  {
    hide Evict, Size, Limit, Budget;
  }

  /** One lossy queue under an enqueue: `n` frames leave its front, `f` may join its end. */
  lemma SplitSubmit(accepted: seq<Frame>, taken: seq<Frame>, gone: seq<Departure>,
                    queued: seq<Frame>, qos: QosClass, n: nat, f: Frame, admitted: bool)
    requires n <= |queued| && Split(accepted, taken, gone, queued, qos)
    ensures Split(if admitted then accepted + [f] else accepted, taken,
                  gone + Departures(queued[..n], false),
                  queued[n..] + (if f.qos == qos && admitted then [f] else []), qos)
  {
    EvictSplit(accepted, taken, gone, queued, qos, n);
    hide Frames, TakenOf;
    var gone' := gone + Departures(queued[..n], false);
    assert queued[n..] + [] == queued[n..];
    if admitted {
      SelectQos(accepted, f, qos);
      assert Frames(gone') + queued[n..] + [f] == Frames(gone') + (queued[n..] + [f]);
    }
  }

  lemma OrderedSubmit(accepted: seq<Frame>, taken: seq<Frame>, queued: seq<Frame>,
                      qos: QosClass, f: Frame, admitted: bool)
    requires OfQos(accepted, qos) == OfQos(taken, qos) + queued
    ensures OfQos(if admitted then accepted + [f] else accepted, qos)
         == OfQos(taken, qos) + (queued + (if f.qos == qos && admitted then [f] else []))
  {
    assert queued + [] == queued;
    if admitted {
      SelectQos(accepted, f, qos);
      assert OfQos(taken, qos) + queued + [f] == OfQos(taken, qos) + (queued + [f]);
    }
  }

  lemma SubmitLossy(s: QueueState, max: nat, f: Frame)
    requires Sound(s.line, max) && Ledger(s)
    ensures
      var t := Submitted(s, max, f);
      && OfQos(t.accepted, ReliableOrdered)
         == OfQos(t.taken, ReliableOrdered) + t.line.ordered
      && Split(t.accepted, t.taken, t.goneBestEffort, t.line.bestEffort, BestEffort)
      && Split(t.accepted, t.taken, t.goneBulk, t.line.bulk, Bulk)
  {
    hide Enqueue, EvictionOf, Sound, KeyLedger, Split, OfQos, Departures;
    AcceptedLine(s.line, max, s.running, f);
    var e := EvictionOf(s.line, max, s.running, f);
    var ok := Enqueue(s.line, max, s.running, f.bytes, f.qos, f.latestKey).accepted;
    OrderedSubmit(s.accepted, s.taken, s.line.ordered, ReliableOrdered, f, ok);
    SplitSubmit(s.accepted, s.taken, s.goneBestEffort, s.line.bestEffort, BestEffort,
                e.bestEffort, f, ok);
    SplitSubmit(s.accepted, s.taken, s.goneBulk, s.line.bulk, Bulk, e.bulk, f, ok);
  }

  // One key

  lemma KeyIrrelevant(accepted: seq<Frame>, taken: seq<Frame>, latest: seq<Frame>, f: Frame,
                      key: Bytes)
    requires KeySplit(accepted, taken, latest, key) && f.qos != ReliableLatest
    ensures KeySplit(accepted + [f], taken, latest, key)
    ensures KeySplit(accepted, taken + [f], latest, key)
  {
    SelectAppend(accepted, f, HasKey(key));
    SelectAppend(taken, f, HasKey(key));
  }

  lemma KeyPush(accepted: seq<Frame>, taken: seq<Frame>, latest: seq<Frame>, f: Frame,
                key: Bytes)
    requires KeySplit(accepted, taken, latest, key) && f.qos == ReliableLatest
    requires f.latestKey != [] ==> FindKey(latest, f.latestKey).None?
    ensures KeySplit(accepted + [f], taken, latest + [f], key)
  {
    hide Subsequence, Select;
    var p := HasKey(key);
    SelectAppend(accepted, f, p);
    SelectAppend(latest, f, p);
    if f.latestKey == key {
      if key != [] {
        SelectNone(latest, p);
      }
      SubsequenceKeep(OfKey(taken, key) + OfKey(latest, key), OfKey(accepted, key), f);
      assert OfKey(taken, key) + OfKey(latest, key) + [f]
          == OfKey(taken, key) + (OfKey(latest, key) + [f]);
    }
  }

  /** A frame that replaces the queued one of its key. */
  lemma KeyReplace(accepted: seq<Frame>, taken: seq<Frame>, latest: seq<Frame>, i: nat, f: Frame,
                   key: Bytes)
    requires KeySplit(accepted, taken, latest, key) && f.qos == ReliableLatest
    requires AllOfClass(latest, ReliableLatest) && DistinctKeys(latest)
    requires i < |latest| && latest[i].latestKey == f.latestKey && f.latestKey != []
    ensures KeySplit(accepted + [f], taken, latest[i := f], key)
  {
    hide Subsequence, Select;
    var p := HasKey(key);
    SelectAppend(accepted, f, p);
    if f.latestKey == key {
      SelectOnly(latest, i, p);
      SelectOnly(latest[i := f], i, p);
      var before, all := OfKey(taken, key), OfKey(accepted, key);
      SubsequenceInit(before + [latest[i]], all);
      assert (before + [latest[i]])[..|before + [latest[i]]| - 1] == before;
      SubsequenceKeep(before, all, f);
    } else {
      SelectUpdate(latest, i, f, p);
    }
  }

  lemma KeyTake(accepted: seq<Frame>, taken: seq<Frame>, latest: seq<Frame>, key: Bytes)
    requires KeySplit(accepted, taken, latest, key) && latest != []
    ensures KeySplit(accepted, taken + [latest[0]], latest[1..], key)
  {
    hide Subsequence, Select;
    var p, f := HasKey(key), latest[0];
    SelectAppend(taken, f, p);
    SelectHead(latest, p);
    var before, rest := OfKey(taken, key), OfKey(latest[1..], key);
    assert before + [f] + rest == before + ([f] + rest);
  }

  lemma SubmitKey(s: QueueState, max: nat, f: Frame, key: Bytes)
    requires Sound(s.line, max) && KeyLedger(s, key)
    ensures KeyLedger(Submitted(s, max, f), key)
  {
    hide Enqueue, EvictionOf, KeySplit, Size, Limit, AllOfClass, DistinctKeys;
    AcceptedLine(s.line, max, s.running, f);
    if Enqueue(s.line, max, s.running, f.bytes, f.qos, f.latestKey).accepted {
      if f.qos != ReliableLatest {
        KeyIrrelevant(s.accepted, s.taken, s.line.latest, f, key);
      } else {
        var i := Superseded(s.line, f.qos, f.latestKey);
        if i.Some? {
          KeyReplace(s.accepted, s.taken, s.line.latest, i.value, f, key);
        } else {
          KeyPush(s.accepted, s.taken, s.line.latest, f, key);
        }
      }
    }
  }

  lemma TakeKey(s: QueueState, max: nat, key: Bytes)
    requires Sound(s.line, max) && KeyLedger(s, key)
    ensures KeyLedger(Took(s), key)
  {
    hide KeySplit, Size, Limit, DistinctKeys;
    var l := s.line;
    if l.ordered == [] && l.latest != [] {
      KeyTake(s.accepted, s.taken, l.latest, key);
    } else if Next(l).Some? {
      KeyIrrelevant(s.accepted, s.taken, l.latest, Next(l).value, key);
    }
  }

  // One queue

  lemma OrderedTake(accepted: seq<Frame>, taken: seq<Frame>, queued: seq<Frame>, qos: QosClass)
    requires OfQos(accepted, qos) == OfQos(taken, qos) + queued
    requires queued != [] && queued[0].qos == qos
    ensures OfQos(accepted, qos) == OfQos(taken + [queued[0]], qos) + queued[1..]
  {
    SelectQos(taken, queued[0], qos);
  }

  lemma SplitTake(accepted: seq<Frame>, taken: seq<Frame>, gone: seq<Departure>,
                  queued: seq<Frame>, qos: QosClass)
    requires Split(accepted, taken, gone, queued, qos)
    requires queued != [] && queued[0].qos == qos
    ensures Split(accepted, taken + [queued[0]], gone + [Departure(queued[0], true)],
                  queued[1..], qos)
  {
    SelectQos(taken, queued[0], qos);
    TakeOne(gone, queued[0]);
  }

  lemma SplitOther(accepted: seq<Frame>, taken: seq<Frame>, gone: seq<Departure>,
                   queued: seq<Frame>, qos: QosClass, f: Frame)
    requires Split(accepted, taken, gone, queued, qos) && f.qos != qos
    ensures Split(accepted, taken + [f], gone, queued, qos)
  {
    SelectQos(taken, f, qos);
  }

  lemma TakeLossy(s: QueueState, max: nat)
    requires Sound(s.line, max) && Ledger(s)
    ensures
      var t := Took(s);
      && OfQos(t.accepted, ReliableOrdered)
         == OfQos(t.taken, ReliableOrdered) + t.line.ordered
      && Split(t.accepted, t.taken, t.goneBestEffort, t.line.bestEffort, BestEffort)
      && Split(t.accepted, t.taken, t.goneBulk, t.line.bulk, Bulk)
  {
    hide KeyLedger, Size, Limit, OfQos, Split, DistinctKeys;
    var l, a, k := s.line, s.accepted, s.taken;
    if Next(l).Some? {
      var f := Next(l).value;
      if f.qos == ReliableOrdered {
        OrderedTake(a, k, l.ordered, ReliableOrdered);
      } else {
        SelectQos(k, f, ReliableOrdered);
      }
      if f.qos == BestEffort {
        SplitTake(a, k, s.goneBestEffort, l.bestEffort, BestEffort);
      } else {
        SplitOther(a, k, s.goneBestEffort, l.bestEffort, BestEffort, f);
      }
      if f.qos == Bulk {
        SplitTake(a, k, s.goneBulk, l.bulk, Bulk);
      } else {
        SplitOther(a, k, s.goneBulk, l.bulk, Bulk, f);
      }
    }
  }

  // Every run

  /**
   At every point of every run: the byte budget holds, and the ledger holds. Ordered frames
   taken followed by those queued are those accepted; BestEffort and Bulk are
   order-preserving splits into taken, evicted and queued; and per key the newest accepted
   ReliableLatest frame is queued or was taken after all earlier ones of that key.
   */
  lemma {:induction false} EveryRun(max: nat, events: seq<Event>)
    ensures Sound(Run(max, events).line, max) && Ledger(Run(max, events))
    decreases |events|
  {
    hide Sound, Ledger;
    if events == [] {
      StartLedger(max);
    } else {
      EveryRun(max, events[..|events| - 1]);
      StepKeepsLedger(Run(max, events[..|events| - 1]), max, events[|events| - 1]);
    }
  }

  lemma StartLedger(max: nat)
    ensures Sound(START.line, max) && Ledger(START)
  {
  }

  lemma StepKeepsLedger(s: QueueState, max: nat, e: Event)
    requires Sound(s.line, max) && Ledger(s)
    ensures Sound(Apply(s, max, e).line, max) && Ledger(Apply(s, max, e))
  {
    hide Sound, Submitted, Took, Split, OfQos;
    var t := Apply(s, max, e);
    match e
    case Submit(f) =>
      SubmitLossy(s, max, f);
      SubmittedLine(s, max, f);
      EnqueueSound(s.line, max, s.running, f.bytes, f.qos, f.latestKey);
      forall key: Bytes
        ensures KeyLedger(t, key)
      {
        SubmitKey(s, max, f, key);
      }
    case TakeNext =>
      TakeLossy(s, max);
      TookLine(s);
      TakeSound(s.line, max);
      forall key: Bytes
        ensures KeyLedger(t, key)
      {
        TakeKey(s, max, key);
      }
    case Stop =>
      forall key: Bytes
        ensures KeyLedger(t, key)
      {
        assert KeyLedger(s, key);
      }
  }

  lemma SubmittedLine(s: QueueState, max: nat, f: Frame)
    ensures Submitted(s, max, f).line
         == Enqueue(s.line, max, s.running, f.bytes, f.qos, f.latestKey).line
  {
  }

  lemma TookLine(s: QueueState)
    ensures Took(s).line == Rest(s.line)
  {
  }

  /** After a stop nothing more is accepted, in any continuation of the run. */
  lemma {:induction false} StoppedAcceptsNothing(max: nat, events: seq<Event>, more: seq<Event>)
    requires !Run(max, events).running
    ensures
      var s, t := Run(max, events), Run(max, events + more);
      !t.running && t.accepted == s.accepted
    decreases |more|
  {
    if more == [] {
      assert events + more == events;
    } else {
      var more' := more[..|more| - 1];
      StoppedAcceptsNothing(max, events, more');
      assert (events + more)[..|events + more| - 1] == events + more';
    }
  }
}
