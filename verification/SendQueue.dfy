/**
 The four send queues of a connection, which share one byte budget: admission, eviction of
 lossy frames, coalescing by key and strict-priority take, as functions on the contents of
 the queues. `RuntimeConnection` holds the program's loops.
 */
module SendQueue {
  import opened ByteLayout
  import opened Wire

  const RELIABLE_ORDERED_RESERVE_FRACTION := 4

  /** `latestKey` identifies what a ReliableLatest frame supersedes; empty means nothing. */
  datatype Frame = Frame(bytes: Bytes, qos: QosClass, latestKey: Bytes)

  /** The contents of the queues, highest priority first. */
  datatype Line = Line(
    ordered: seq<Frame>,
    latest: seq<Frame>,
    bestEffort: seq<Frame>,
    bulk: seq<Frame>)

  function Size(frames: seq<Frame>): nat
  {
    if frames == [] then 0 else |frames[0].bytes| + Size(frames[1..])
  }

  function Reliable(l: Line): nat
  {
    Size(l.ordered) + Size(l.latest)
  }

  function Total(l: Line): nat
  {
    Size(l.ordered) + Size(l.latest) + Size(l.bestEffort) + Size(l.bulk)
  }

  /** `enqueue_limit`: everything for control frames, three quarters for the rest. */
  function Limit(max: nat, qos: QosClass): (r: nat)
    ensures r <= max
  {
    if qos == ReliableOrdered then max else max - max / RELIABLE_ORDERED_RESERVE_FRACTION
  }

  // Eviction

  /** How many frames leave the front of the two lossy queues. */
  datatype Eviction = Eviction(bestEffort: nat, bulk: nat)

  /** Drop the oldest Bulk frames, then the oldest BestEffort ones, until `budget` is met. */
  function Evict(bestEffort: seq<Frame>, bulk: seq<Frame>, budget: int): (e: Eviction)
    ensures e.bestEffort <= |bestEffort| && e.bulk <= |bulk|
    decreases |bestEffort| + |bulk|
  {
    if Size(bestEffort) + Size(bulk) <= budget then Eviction(0, 0)
    else if bulk != [] then
      var e := Evict(bestEffort, bulk[1..], budget);
      e.(bulk := e.bulk + 1)
    else if bestEffort != [] then
      var e := Evict(bestEffort[1..], [], budget);
      e.(bestEffort := e.bestEffort + 1)
    else Eviction(0, 0)
  }

  /** What remains of the lossy queues. */
  function Evicted(l: Line, e: Eviction): Line
    requires e.bestEffort <= |l.bestEffort| && e.bulk <= |l.bulk|
  {
    l.(bestEffort := l.bestEffort[e.bestEffort..], bulk := l.bulk[e.bulk..])
  }

  // Enqueue

  function FindKey(frames: seq<Frame>, key: Bytes): (r: Option<nat>)
    ensures r.Some? ==> r.value < |frames| && frames[r.value].latestKey == key
    ensures r.Some? ==> forall i :: 0 <= i < r.value ==> frames[i].latestKey != key
    ensures r.None? ==> forall i :: 0 <= i < |frames| ==> frames[i].latestKey != key
  {
    if frames == [] then None
    else if frames[0].latestKey == key then Some(0)
    else
      match FindKey(frames[1..], key)
      case None => None
      case Some(i) => Some(i + 1)
  }

  /** The queued frame this one supersedes, if any. */
  function Superseded(l: Line, qos: QosClass, key: Bytes): (r: Option<nat>)
    ensures r.Some? ==>
      qos == ReliableLatest && r.value < |l.latest| && l.latest[r.value].latestKey == key
  {
    if qos == ReliableLatest && key != [] then FindKey(l.latest, key) else None
  }

  /** The reliable bytes that stay queued whether or not this frame is admitted. */
  function Kept(l: Line, qos: QosClass, key: Bytes): (r: int)
  {
    var i := Superseded(l, qos, key);
    if i.Some? then Reliable(l) - |l.latest[i.value].bytes| else Reliable(l)
  }

  function Budget(l: Line, max: nat, bytes: Bytes, qos: QosClass, key: Bytes): int
  {
    Limit(max, qos) - |bytes| - Kept(l, qos, key)
  }

  function Push(l: Line, frame: Frame): Line
  {
    match frame.qos
    case ReliableOrdered => l.(ordered := l.ordered + [frame])
    case ReliableLatest => l.(latest := l.latest + [frame])
    case BestEffort => l.(bestEffort := l.bestEffort + [frame])
    case Bulk => l.(bulk := l.bulk + [frame])
  }

  datatype Outcome = Outcome(accepted: bool, line: Line, eviction: Eviction)

  /** `runtime_enqueue`, once the size check has passed. */
  function Admit(l: Line, max: nat, bytes: Bytes, qos: QosClass, key: Bytes): Outcome
  {
    var budget := Budget(l, max, bytes, qos, key);
    var e := Evict(l.bestEffort, l.bulk, budget);
    var room := Evicted(l, e);
    if Size(room.bestEffort) + Size(room.bulk) > budget then Outcome(false, room, e)
    else
      var i := Superseded(l, qos, key);
      if i.Some? then
        Outcome(true,
                room.(latest := l.latest[i.value := l.latest[i.value].(bytes := bytes)]),
                e)
      else Outcome(true, Push(room, Frame(bytes, qos, key)), e)
  }

  /** `runtime_enqueue` on a connection that is running or not. */
  function Enqueue(l: Line, max: nat, running: bool, bytes: Bytes, qos: QosClass, key: Bytes)
    : Outcome
  {
    if bytes == [] || !running || |bytes| > Limit(max, qos)
    then Outcome(false, l, Eviction(0, 0))
    else Admit(l, max, bytes, qos, key)
  }

  // Take

  /** `take_next_frame`: the oldest frame of the first queue that has one. */
  function Next(l: Line): Option<Frame>
  {
    if l.ordered != [] then Some(l.ordered[0])
    else if l.latest != [] then Some(l.latest[0])
    else if l.bestEffort != [] then Some(l.bestEffort[0])
    else if l.bulk != [] then Some(l.bulk[0])
    else None
  }

  function Rest(l: Line): Line
  {
    if l.ordered != [] then l.(ordered := l.ordered[1..])
    else if l.latest != [] then l.(latest := l.latest[1..])
    else if l.bestEffort != [] then l.(bestEffort := l.bestEffort[1..])
    else if l.bulk != [] then l.(bulk := l.bulk[1..])
    else l
  }

  // The invariant

  predicate AllOfClass(frames: seq<Frame>, qos: QosClass)
  {
    forall i :: 0 <= i < |frames| ==> frames[i].qos == qos && frames[i].bytes != []
  }

  predicate DistinctKeys(frames: seq<Frame>)
  {
    forall i, j :: 0 <= i < j < |frames| && frames[i].latestKey == frames[j].latestKey
                   ==> frames[i].latestKey == []
  }

  /** What every enqueue and take keeps. */
  predicate Sound(l: Line, max: nat)
  {
    && AllOfClass(l.ordered, ReliableOrdered)
    && AllOfClass(l.latest, ReliableLatest)
    && AllOfClass(l.bestEffort, BestEffort)
    && AllOfClass(l.bulk, Bulk)
    && DistinctKeys(l.latest)
    && Total(l) <= max
    && Size(l.latest) + Size(l.bestEffort) + Size(l.bulk) <= Limit(max, ReliableLatest)
  }

  // Sizes

  lemma {:induction false} SizeConcat(a: seq<Frame>, b: seq<Frame>)
    ensures Size(a + b) == Size(a) + Size(b)
  {
    if a == [] {
      assert a + b == b;
    } else {
      assert (a + b)[1..] == a[1..] + b;
      SizeConcat(a[1..], b);
    }
  }

  lemma SizeAppend(a: seq<Frame>, f: Frame)
    ensures Size(a + [f]) == Size(a) + |f.bytes|
  {
    SizeConcat(a, [f]);
    assert [f][1..] == [];
  }

  lemma SizeDrop(a: seq<Frame>, n: nat)
    requires n <= |a|
    ensures Size(a) == Size(a[..n]) + Size(a[n..])
  {
    assert a == a[..n] + a[n..];
    SizeConcat(a[..n], a[n..]);
  }

  lemma SizeUpdate(a: seq<Frame>, i: nat, f: Frame)
    requires i < |a|
    ensures Size(a[i := f]) == Size(a) - |a[i].bytes| + |f.bytes|
    ensures |a[i].bytes| <= Size(a)
  {
    SizeDrop(a, i);
    SizeDrop(a[i := f], i);
    assert a[i := f][..i] == a[..i];
    assert a[i..][1..] == a[i + 1..] && a[i := f][i..][1..] == a[i + 1..];
  }

  lemma {:induction false} SizeZero(a: seq<Frame>, qos: QosClass)
    requires AllOfClass(a, qos)
    ensures Size(a) == 0 <==> a == []
  {
    if a != [] {
      assert a[0].bytes != [];
    }
  }

  // Least eviction

  /** Eviction meets every budget that can be met, and Bulk goes before BestEffort. */
  lemma {:induction false} EvictionMeets(bestEffort: seq<Frame>, bulk: seq<Frame>, budget: int)
    ensures
      var e := Evict(bestEffort, bulk, budget);
      && (e.bestEffort > 0 ==> e.bulk == |bulk|)
      && (budget >= 0 <==> Size(bestEffort[e.bestEffort..]) + Size(bulk[e.bulk..]) <= budget)
      && (budget < 0 ==> e.bestEffort == |bestEffort| && e.bulk == |bulk|)
    decreases |bestEffort| + |bulk|
  {
    var e := Evict(bestEffort, bulk, budget);
    if Size(bestEffort) + Size(bulk) <= budget {
      assert bestEffort[0..] == bestEffort && bulk[0..] == bulk;
    } else if bulk != [] {
      EvictionMeets(bestEffort, bulk[1..], budget);
      assert bulk[1..][e.bulk - 1..] == bulk[e.bulk..];
    } else if bestEffort != [] {
      EvictionMeets(bestEffort[1..], [], budget);
      assert bestEffort[1..][e.bestEffort - 1..] == bestEffort[e.bestEffort..];
    }
  }

  /** Stopping any earlier in the eviction order would have left too much. */
  lemma {:induction false} EvictionLeast(bestEffort: seq<Frame>, bulk: seq<Frame>, budget: int)
    ensures
      var e := Evict(bestEffort, bulk, budget);
      forall j :: 0 <= j < e.bulk + e.bestEffort ==> Size((bulk + bestEffort)[j..]) > budget
    decreases |bestEffort| + |bulk|
  {
    var e := Evict(bestEffort, bulk, budget);
    var order := bulk + bestEffort;
    SizeConcat(bulk, bestEffort);
    if Size(bestEffort) + Size(bulk) > budget && order != [] {
      if bulk != [] {
        EvictionLeast(bestEffort, bulk[1..], budget);
        assert order[1..] == bulk[1..] + bestEffort;
      } else {
        EvictionLeast(bestEffort[1..], [], budget);
        assert order[1..] == [] + bestEffort[1..];
      }
      hide Size, Evict;
      forall j | 0 <= j < e.bulk + e.bestEffort
        ensures Size(order[j..]) > budget
      {
        assert j == 0 ==> order[j..] == order;
        assert j > 0 ==> order[j..] == order[1..][j - 1..];
      }
    }
  }

  /**
   Eviction takes the shortest prefix of the eviction order (Bulk first, then BestEffort)
   that meets the budget, and everything when no prefix does.
   */
  lemma LeastEviction(bestEffort: seq<Frame>, bulk: seq<Frame>, budget: int)
    ensures
      var e := Evict(bestEffort, bulk, budget);
      var order := bulk + bestEffort;
      var k := e.bulk + e.bestEffort;
      && order[k..] == bulk[e.bulk..] + bestEffort[e.bestEffort..]
      && (budget >= 0 ==> Size(order[k..]) <= budget)
      && (budget < 0 ==> k == |order|)
      && forall j :: 0 <= j < k ==> Size(order[j..]) > budget
  {
    EvictionMeets(bestEffort, bulk, budget);
    EvictionLeast(bestEffort, bulk, budget);
    hide Evict, Size;
    var e := Evict(bestEffort, bulk, budget);
    SizeConcat(bulk[e.bulk..], bestEffort[e.bestEffort..]);
    assert (bulk + bestEffort)[e.bulk + e.bestEffort..]
        == bulk[e.bulk..] + bestEffort[e.bestEffort..];
  }

  // Exact admission

  /**
   A frame is accepted if and only if the connection runs, the frame is nonempty, and it fits
   under its limit together with the reliable frames that stay. A refusal after the size
   check has still emptied both lossy queues, and left both reliable queues alone.
   */
  lemma ExactAdmission(l: Line, max: nat, running: bool, bytes: Bytes, qos: QosClass, key: Bytes)
    ensures
      var o := Enqueue(l, max, running, bytes, qos, key);
      && (o.accepted
          <==> running && bytes != [] && |bytes| <= Limit(max, qos)
               && |bytes| + Kept(l, qos, key) <= Limit(max, qos))
      && (!o.accepted && running && bytes != [] && |bytes| <= Limit(max, qos) ==>
            o.line == l.(bestEffort := [], bulk := []))
      && (!o.accepted && !(running && bytes != [] && |bytes| <= Limit(max, qos)) ==> o.line == l)
  {
    hide Evict;
    EvictionMeets(l.bestEffort, l.bulk, Budget(l, max, bytes, qos, key));
  }

  /** The reserve: control traffic that fits in a quarter of the budget is never refused. */
  lemma ReserveForControl(l: Line, max: nat, bytes: Bytes, key: Bytes)
    requires Sound(l, max)
    requires bytes != [] && |bytes| + Size(l.ordered) <= max / RELIABLE_ORDERED_RESERVE_FRACTION
    ensures Enqueue(l, max, true, bytes, ReliableOrdered, key).accepted
  {
    ExactAdmission(l, max, true, bytes, ReliableOrdered, key);
  }

  /** The limits in numbers: three quarters of the maximum, and all of it for control frames. */
  function Allowance(max: nat, qos: QosClass): int
  {
    match qos
    case ReliableOrdered => max
    case ReliableLatest => max - max / 4
    case BestEffort => max - max / 4
    case Bulk => max - max / 4
  }

  function QueueOf(l: Line, qos: QosClass): seq<Frame>
  {
    match qos
    case ReliableOrdered => l.ordered
    case ReliableLatest => l.latest
    case BestEffort => l.bestEffort
    case Bulk => l.bulk
  }

  function WithQueue(l: Line, qos: QosClass, frames: seq<Frame>): Line
  {
    match qos
    case ReliableOrdered => l.(ordered := frames)
    case ReliableLatest => l.(latest := frames)
    case BestEffort => l.(bestEffort := frames)
    case Bulk => l.(bulk := frames)
  }

  /** No queued frame is superseded. */
  predicate Appends(l: Line, qos: QosClass, key: Bytes)
  {
    qos == ReliableLatest && key != [] ==>
      forall i :: 0 <= i < |l.latest| ==> l.latest[i].latestKey != key
  }

  /** The queued frame at `i` is the one superseded. */
  predicate Replaces(l: Line, qos: QosClass, key: Bytes, i: nat)
  {
    && qos == ReliableLatest && key != [] && i < |l.latest| && l.latest[i].latestKey == key
    && forall j :: 0 <= j < i ==> l.latest[j].latestKey != key
  }

  /** The lossy queues of `after` are those of `before` without the first `k` frames in the
      order of eviction, and fewer would not have done for `need` more bytes. */
  predicate DropsLeast(before: Line, after: Line, k: nat, need: int, allowance: int)
  {
    var order := before.bulk + before.bestEffort;
    && k <= |order| && after.bulk + after.bestEffort == order[k..]
    && need + Size(order[k..]) <= allowance
    && forall j :: 0 <= j < k ==> need + Size(order[j..]) > allowance
  }

  /**
   Enqueue of a frame that supersedes nothing, in numbers: it is accepted exactly when it and the
   reliable frames are within its allowance, and then it stands last in its own queue, the other
   reliable queue is untouched, and of the lossy frames as few as possible are gone.
   */
  lemma AppendExactly(l: Line, max: nat, running: bool, bytes: Bytes, qos: QosClass, key: Bytes)
    requires Appends(l, qos, key)
    ensures
      var o := Enqueue(l, max, running, bytes, qos, key);
      var need := |bytes| + Size(l.ordered) + Size(l.latest);
      && (o.accepted <==> running && bytes != [] && need <= Allowance(max, qos))
      && (o.accepted ==>
            var q := QueueOf(o.line, qos);
            && q != [] && q[|q| - 1] == Frame(bytes, qos, key)
            && var rest := WithQueue(o.line, qos, q[..|q| - 1]);
            && rest.ordered == l.ordered && rest.latest == l.latest
            && DropsLeast(l, rest, o.eviction.bulk + o.eviction.bestEffort, need,
                          Allowance(max, qos)))
  {
    hide Evict, Size;
    ExactAdmission(l, max, running, bytes, qos, key);
    NothingSuperseded(l, qos, key);
    var o := Enqueue(l, max, running, bytes, qos, key);
    if o.accepted {
      LeastEviction(l.bestEffort, l.bulk, Budget(l, max, bytes, qos, key));
      var q := QueueOf(o.line, qos);
      var room := Evicted(l, o.eviction);
      assert q == QueueOf(room, qos) + [Frame(bytes, qos, key)];
      assert q[..|q| - 1] == QueueOf(room, qos);
      assert WithQueue(o.line, qos, q[..|q| - 1]) == room;
    }
  }

  lemma NothingSuperseded(l: Line, qos: QosClass, key: Bytes)
    requires Appends(l, qos, key)
    ensures Superseded(l, qos, key).None?
  {
  }

  /**
   Enqueue of a frame that supersedes a queued one: the bytes of that frame do not count against
   it, and it takes its place.
   */
  lemma ReplaceExactly(l: Line, max: nat, running: bool, bytes: Bytes, qos: QosClass, key: Bytes,
                       i: nat)
    requires Replaces(l, qos, key, i)
    ensures
      var o := Enqueue(l, max, running, bytes, qos, key);
      var need := |bytes| + Size(l.ordered) + Size(l.latest) - |l.latest[i].bytes|;
      && (o.accepted <==> running && bytes != [] && need <= max - max / 4)
      && (o.accepted ==>
            && o.line.ordered == l.ordered
            && o.line.latest == l.latest[i := l.latest[i].(bytes := bytes)]
            && DropsLeast(l, o.line, o.eviction.bulk + o.eviction.bestEffort, need, max - max / 4))
  {
    hide Evict, Size;
    ExactAdmission(l, max, running, bytes, qos, key);
    assert Superseded(l, qos, key) == Some(i);
    SizeUpdate(l.latest, i, l.latest[i]);
    var o := Enqueue(l, max, running, bytes, qos, key);
    if o.accepted {
      LeastEviction(l.bestEffort, l.bulk, Budget(l, max, bytes, qos, key));
    }
  }

  /** A refused frame changes no reliable queue; once it was looked at, both lossy ones are empty. */
  lemma RefusedExactly(l: Line, max: nat, running: bool, bytes: Bytes, qos: QosClass, key: Bytes)
    requires !Enqueue(l, max, running, bytes, qos, key).accepted
    ensures
      Enqueue(l, max, running, bytes, qos, key).line
        == if running && bytes != [] && |bytes| <= Allowance(max, qos)
           then l.(bestEffort := [], bulk := [])
           else l
  {
    ExactAdmission(l, max, running, bytes, qos, key);
  }

  // Preservation

  lemma EvictedSound(l: Line, max: nat, e: Eviction)
    requires Sound(l, max) && e.bestEffort <= |l.bestEffort| && e.bulk <= |l.bulk|
    ensures Sound(Evicted(l, e), max)
    ensures Total(Evicted(l, e)) <= Total(l)
  {
    SizeDrop(l.bestEffort, e.bestEffort);
    SizeDrop(l.bulk, e.bulk);
  }

  lemma PushSound(l: Line, max: nat, f: Frame)
    requires Sound(l, max) && f.bytes != []
    requires Total(l) + |f.bytes| <= Limit(max, f.qos)
    requires f.qos == ReliableLatest && f.latestKey != [] ==> FindKey(l.latest, f.latestKey).None?
    ensures Sound(Push(l, f), max)
    ensures Total(Push(l, f)) == Total(l) + |f.bytes|
  {
    SizeAppend(l.ordered, f);
    SizeAppend(l.latest, f);
    SizeAppend(l.bestEffort, f);
    SizeAppend(l.bulk, f);
    hide Size;
  }

  /** Every enqueue keeps the invariant, accepted, refused or coalesced. */
  lemma EnqueueSound(l: Line, max: nat, running: bool, bytes: Bytes, qos: QosClass, key: Bytes)
    requires Sound(l, max)
    ensures Sound(Enqueue(l, max, running, bytes, qos, key).line, max)
  {
    hide Size, Evict;
    if bytes != [] && running && |bytes| <= Limit(max, qos) {
      var e := Evict(l.bestEffort, l.bulk, Budget(l, max, bytes, qos, key));
      EvictedSound(l, max, e);
      var room := Evicted(l, e);
      var i := Superseded(l, qos, key);
      if Enqueue(l, max, running, bytes, qos, key).accepted {
        if i.Some? {
          SizeUpdate(l.latest, i.value, l.latest[i.value].(bytes := bytes));
        } else {
          PushSound(room, max, Frame(bytes, qos, key));
        }
      }
    }
  }

  /** Every take keeps the invariant and removes exactly the bytes of the frame it returns. */
  lemma TakeSound(l: Line, max: nat)
    requires Sound(l, max)
    ensures Sound(Rest(l), max)
    ensures Next(l).None? <==> Total(l) == 0
    ensures Next(l).Some? ==> Total(Rest(l)) == Total(l) - |Next(l).value.bytes|
  {
    SizeZero(l.ordered, ReliableOrdered);
    SizeZero(l.latest, ReliableLatest);
    SizeZero(l.bestEffort, BestEffort);
    SizeZero(l.bulk, Bulk);
  }

  /**
   Coalescing keeps the position of the frame it replaces: an accepted frame whose key is
   queued changes only the bytes at that position, and no position of a reliable queue moves.
   */
  lemma CoalescingKeepsPosition(l: Line, max: nat, running: bool, bytes: Bytes, key: Bytes,
                                i: nat)
    requires Sound(l, max) && key != [] && i < |l.latest| && l.latest[i].latestKey == key
    ensures
      var o := Enqueue(l, max, running, bytes, ReliableLatest, key);
      && |o.line.latest| == |l.latest|
      && o.line.ordered == l.ordered
      && (forall j :: 0 <= j < |l.latest| && j != i ==> o.line.latest[j] == l.latest[j])
      && o.line.latest[i]
         == if o.accepted then Frame(bytes, ReliableLatest, key) else l.latest[i]
  {
    var r := Superseded(l, ReliableLatest, key);
    assert r == Some(i);
  }

  // Priority

  /**
   Strict priority: a take returns the oldest frame of its class, no frame of an earlier class
   is queued, and every other queue stays as it is. Classes come in the order of their numbers.
   */
  lemma StrictPriority(l: Line, max: nat)
    requires Sound(l, max) && Next(l).Some?
    ensures
      var f := Next(l).value;
      && QueueOf(l, f.qos) == [f] + QueueOf(Rest(l), f.qos)
      && forall qos ::
           && (QosByte(qos) < QosByte(f.qos) ==> QueueOf(l, qos) == [])
           && (qos != f.qos ==> QueueOf(Rest(l), qos) == QueueOf(l, qos))
  {
    hide Size, DistinctKeys;
  }
}
