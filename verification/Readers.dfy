/**
 Printing a value in front of other bytes and reading it back from the front: the shape shared
 by every payload codec. A reader either fails or returns a value and the bytes it left.
 */
module Readers {
  import opened ByteLayout

  // Fixed-width numbers, least significant byte first

  function TakeLe(b: Bytes, n: nat): (r: Option<(nat, Bytes)>)
    ensures r.Some? ==> r.value.0 < Pow256(n)
  {
    if |b| < n then None else Some((FromLe(b[..n]), b[n..]))
  }

  lemma TakeLePut(v: nat, n: nat, rest: Bytes)
    requires v < Pow256(n)
    ensures TakeLe(Le(v, n) + rest, n) == Some((v, rest))
  {
    var b := Le(v, n) + rest;
    assert b[..n] == Le(v, n) && b[n..] == rest;
    FromLeOfLe(v, n);
  }

  lemma PutTakeLe(b: Bytes, n: nat)
    requires TakeLe(b, n).Some?
    ensures Le(TakeLe(b, n).value.0, n) + TakeLe(b, n).value.1 == b
  {
    LeOfFromLe(b[..n]);
  }

  function TakeU8(b: Bytes): Option<(byte, Bytes)>
  {
    if b == [] then None else Some((b[0], b[1..]))
  }

  function TakeU16(b: Bytes): Option<(u16, Bytes)>
  {
    match TakeLe(b, 2)
    case None => None
    case Some((v, rest)) => Some((v, rest))
  }

  function TakeU32(b: Bytes): Option<(u32, Bytes)>
  {
    match TakeLe(b, 4)
    case None => None
    case Some((v, rest)) => Some((v, rest))
  }

  function TakeU64(b: Bytes): Option<(u64, Bytes)>
  {
    match TakeLe(b, 8)
    case None => None
    case Some((v, rest)) => Some((v, rest))
  }

  // Length-prefixed text

  function PutText(v: Bytes): Bytes
  {
    Le(|v|, 2) + v
  }

  function TakeText(b: Bytes): (r: Option<(Bytes, Bytes)>)
    ensures r.Some? ==> |r.value.0| < 0x1_0000 && |r.value.1| < |b|
  {
    match TakeU16(b)
    case None => None
    case Some((n, rest)) => if |rest| < n then None else Some((rest[..n], rest[n..]))
  }

  lemma TakePutText(v: Bytes, rest: Bytes)
    requires |v| < 0x1_0000
    ensures TakeText(PutText(v) + rest) == Some((v, rest))
  {
    hide TakeLe;
    TakeLePut(|v|, 2, v + rest);
    assert PutText(v) + rest == Le(|v|, 2) + (v + rest);
  }

  lemma PutTakeText(b: Bytes)
    requires TakeText(b).Some?
    ensures PutText(TakeText(b).value.0) + TakeText(b).value.1 == b
  {
    PutTakeLe(b, 2);
    hide TakeLe;
    var (n, rest) := TakeU16(b).value;
    assert Le(n, 2) + rest[..n] + rest[n..] == Le(n, 2) + rest;
  }

  // Lists

  /** The printed elements, one after the other. */
  function PutAll<T>(values: seq<T>, put: T -> Bytes): Bytes
  {
    if values == [] then [] else put(values[0]) + PutAll(values[1..], put)
  }

  /** Rows that print alike make lists that print alike. */
  lemma {:induction false} SameRows<T>(values: seq<T>, put: T -> Bytes, row: T -> Bytes)
    requires forall v :: put(v) == row(v)
    ensures PutAll(values, put) == PutAll(values, row)
  {
    if values != [] {
      SameRows(values[1..], put, row);
    }
  }

  /** Lists are their elements in order. */
  lemma {:induction false} RowsInOrder<T>(a: seq<T>, x: T, row: T -> Bytes)
    ensures PutAll(a + [x], row) == PutAll(a, row) + row(x)
    ensures PutAll([], row) == []
  {
    if a == [] {
      assert a + [x] == [x] && [x][1..] == [];
    } else {
      assert (a + [x])[1..] == a[1..] + [x];
      RowsInOrder(a[1..], x, row);
    }
  }

  function TakeMany<T>(b: Bytes, count: nat, take: Bytes -> Option<(T, Bytes)>)
    : (r: Option<(seq<T>, Bytes)>)
    ensures r.Some? ==> |r.value.0| == count
    decreases count
  {
    if count == 0 then Some(([], b))
    else
      match take(b)
      case None => None
      case Some((v, rest)) =>
        match TakeMany(rest, count - 1, take)
        case None => None
        case Some((vs, left)) => Some(([v] + vs, left))
  }

  /** Reading gives back what was printed, whatever follows it. */
  ghost predicate ReadsBack<T>(v: T, put: T -> Bytes, take: Bytes -> Option<(T, Bytes)>)
  {
    forall rest: Bytes :: take(put(v) + rest) == Some((v, rest))
  }

  /** What was read is printed as the bytes it was read from. */
  ghost predicate PrintsBack<T>(b: Bytes, put: T -> Bytes, take: Bytes -> Option<(T, Bytes)>)
  {
    take(b).Some? ==> put(take(b).value.0) + take(b).value.1 == b
  }

  lemma {:induction false} TakePutAll<T>(values: seq<T>, put: T -> Bytes,
                                         take: Bytes -> Option<(T, Bytes)>, rest: Bytes)
    requires forall v :: v in values ==> ReadsBack(v, put, take)
    ensures TakeMany(PutAll(values, put) + rest, |values|, take) == Some((values, rest))
    decreases |values|
  {
    if values == [] {
      assert PutAll(values, put) + rest == rest;
    } else {
      var tail := PutAll(values[1..], put) + rest;
      assert PutAll(values, put) + rest == put(values[0]) + tail;
      assert ReadsBack(values[0], put, take);
      TakePutAll(values[1..], put, take, rest);
      assert [values[0]] + values[1..] == values;
    }
  }

  lemma {:induction false} PutTakeMany<T>(b: Bytes, count: nat, put: T -> Bytes,
                                          take: Bytes -> Option<(T, Bytes)>)
    requires forall c: Bytes :: PrintsBack(c, put, take)
    requires TakeMany(b, count, take).Some?
    ensures
      var (values, rest) := TakeMany(b, count, take).value;
      PutAll(values, put) + rest == b
    decreases count
  {
    if count > 0 {
      assert PrintsBack(b, put, take);
      var (v, rest) := take(b).value;
      PutTakeMany(rest, count - 1, put, take);
      var (vs, left) := TakeMany(rest, count - 1, take).value;
      assert ([v] + vs)[1..] == vs;
      assert put(v) + PutAll(vs, put) + left == put(v) + (PutAll(vs, put) + left);
    }
  }

  /** What every element read satisfies. */
  lemma {:induction false} TakenAll<T>(b: Bytes, count: nat, take: Bytes -> Option<(T, Bytes)>,
                                       good: T -> bool)
    requires forall c: Bytes :: take(c).Some? ==> good(take(c).value.0)
    requires TakeMany(b, count, take).Some?
    ensures forall v :: v in TakeMany(b, count, take).value.0 ==> good(v)
    decreases count
  {
    if count > 0 {
      TakenAll(take(b).value.1, count - 1, take, good);
    }
  }

  /** What the rest of a list reads as when `done` was read before it. */
  function Prepended<T>(done: seq<T>, rest: Option<(seq<T>, Bytes)>): Option<(seq<T>, Bytes)>
  {
    match rest
    case None => None
    case Some((values, left)) => Some((done + values, left))
  }

  /** One more element read, one fewer to read. */
  lemma ReadOneMore<T>(b: Bytes, count: nat, take: Bytes -> Option<(T, Bytes)>, done: seq<T>)
    requires count > 0
    ensures take(b).None? ==> Prepended(done, TakeMany(b, count, take)).None?
    ensures take(b).Some? ==>
      Prepended(done, TakeMany(b, count, take))
        == Prepended(done + [take(b).value.0], TakeMany(take(b).value.1, count - 1, take))
  {
    if take(b).Some? {
      var (v, rest) := take(b).value;
      if TakeMany(rest, count - 1, take).Some? {
        var vs := TakeMany(rest, count - 1, take).value.0;
        assert done + ([v] + vs) == done + [v] + vs;
      }
    }
  }

  /** What a reading method returns and leaves, against the specification of the reader. */
  ghost predicate Took<T>(taken: Option<(T, Bytes)>, value: Option<T>, rest: Bytes)
  {
    match taken
    case None => value.None?
    case Some((v, r)) => value == Some(v) && rest == r
  }

  // Fixed-width numbers, most significant byte first

  function Be(v: nat, n: nat): (r: Bytes)
    ensures |r| == n
  {
    if n == 0 then [] else Be(v / 256, n - 1) + [v % 256]
  }

  function FromBe(b: Bytes): (r: nat)
    ensures r < Pow256(|b|)
  {
    if b == [] then 0 else 256 * FromBe(b[..|b| - 1]) + b[|b| - 1]
  }

  lemma {:induction false} FromBeOfBe(v: nat, n: nat)
    requires v < Pow256(n)
    ensures FromBe(Be(v, n)) == v
  {
    if n > 0 {
      FromBeOfBe(v / 256, n - 1);
      assert Be(v, n)[..n - 1] == Be(v / 256, n - 1);
    }
  }

  lemma {:induction false} BeOfFromBe(b: Bytes)
    ensures Be(FromBe(b), |b|) == b
    decreases |b|
  {
    if b != [] {
      var init, last := b[..|b| - 1], b[|b| - 1];
      var v := FromBe(b);
      assert v % 256 == last && v / 256 == FromBe(init);
      BeOfFromBe(init);
    }
  }

  function TakeBe(b: Bytes, n: nat): (r: Option<(nat, Bytes)>)
    ensures r.Some? ==> r.value.0 < Pow256(n) && |r.value.1| == |b| - n
  {
    if |b| < n then None else Some((FromBe(b[..n]), b[n..]))
  }

  lemma TakePutBe(v: nat, n: nat, rest: Bytes)
    requires v < Pow256(n)
    ensures TakeBe(Be(v, n) + rest, n) == Some((v, rest))
  {
    var b := Be(v, n) + rest;
    assert b[..n] == Be(v, n) && b[n..] == rest;
    FromBeOfBe(v, n);
  }

  lemma PutTakeBe(b: Bytes, n: nat)
    requires TakeBe(b, n).Some?
    ensures Be(TakeBe(b, n).value.0, n) + TakeBe(b, n).value.1 == b
  {
    BeOfFromBe(b[..n]);
  }
}
