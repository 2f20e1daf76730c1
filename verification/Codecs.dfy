/**
 Payload codecs and the ways to build larger ones: in sequence, in a bounded list, behind a
 flag, as the fields of a record. Each way of building keeps two laws, so a message obeys them
 because its parts do.
 */
module Codecs {
  import opened ByteLayout
  import opened Readers

  /**
   `fits` is what the writer checks: a value that does not fit makes the whole payload empty.
   `good` is what the reader checks of a value that was written.
   */
  datatype Codec<!T> = Codec(
    fits: T -> bool,
    good: T -> bool,
    put: T -> Bytes,
    take: Bytes -> Option<(T, Bytes)>)

  /** A written value is read back exactly if the reader's checks hold, and rejected if not. */
  ghost predicate RoundTrips<T(!new)>(c: Codec<T>)
  {
    forall v: T, rest: Bytes :: c.fits(v) ==>
      c.take(c.put(v) + rest) == if c.good(v) then Some((v, rest)) else None
  }

  /** Whatever is read passes the checks, and if it can be written it was written like this. */
  ghost predicate Canonical<T(!new)>(c: Codec<T>)
  {
    forall b: Bytes :: c.take(b).Some? ==>
      && c.good(c.take(b).value.0)
      && (c.fits(c.take(b).value.0) ==> c.put(c.take(b).value.0) + c.take(b).value.1 == b)
  }

  ghost predicate Lawful<T(!new)>(c: Codec<T>)
  {
    RoundTrips(c) && Canonical(c)
  }

  // Whole payloads

  /** `build_payload`: nothing if any part did not fit. */
  function Build<T>(c: Codec<T>, v: T): Bytes
  {
    if c.fits(v) then c.put(v) else []
  }

  /** `parse_payload`: the payload must be used up. */
  function Parse<T>(c: Codec<T>, bytes: Bytes): Option<T>
  {
    match c.take(bytes)
    case None => None
    case Some((v, rest)) => if rest == [] then Some(v) else None
  }

  /** A payload that was built parses to the same value, or is rejected by the reader's checks. */
  lemma BuildParse<T(!new)>(c: Codec<T>, v: T)
    requires RoundTrips(c) && c.fits(v)
    ensures Parse(c, Build(c, v)) == if c.good(v) then Some(v) else None
  {
    assert c.put(v) + [] == c.put(v);
  }

  /** A payload that parses to a value that fits is the one built from it. */
  lemma ParseBuild<T(!new)>(c: Codec<T>, bytes: Bytes)
    requires Canonical(c) && Parse(c, bytes).Some?
    ensures c.good(Parse(c, bytes).value)
    ensures c.fits(Parse(c, bytes).value) ==> Build(c, Parse(c, bytes).value) == bytes
  {
  }

  // One after the other

  function PairTake<A, B>(a: Codec<A>, b: Codec<B>, bytes: Bytes): Option<((A, B), Bytes)>
  {
    var (x, rest) :- a.take(bytes);
    var (y, left) :- b.take(rest);
    Some(((x, y), left))
  }

  function Pair<A, B>(a: Codec<A>, b: Codec<B>): Codec<(A, B)>
  {
    Codec((v: (A, B)) => a.fits(v.0) && b.fits(v.1),
          (v: (A, B)) => a.good(v.0) && b.good(v.1),
          (v: (A, B)) => a.put(v.0) + b.put(v.1),
          (bytes: Bytes) => PairTake(a, b, bytes))
  }

  lemma PairRoundTrips<A(!new), B(!new)>(a: Codec<A>, b: Codec<B>)
    requires RoundTrips(a) && RoundTrips(b)
    ensures RoundTrips(Pair(a, b))
  {
    var c := Pair(a, b);
    forall v: (A, B), rest: Bytes | c.fits(v)
      ensures c.take(c.put(v) + rest) == if c.good(v) then Some((v, rest)) else None
    {
      assert c.put(v) + rest == a.put(v.0) + (b.put(v.1) + rest);
    }
  }

  lemma PairCanonical<A(!new), B(!new)>(a: Codec<A>, b: Codec<B>)
    requires Canonical(a) && Canonical(b)
    ensures Canonical(Pair(a, b))
  {
    var c := Pair(a, b);
    forall bytes: Bytes | c.take(bytes).Some?
      ensures
        var (v, rest) := c.take(bytes).value;
        c.good(v) && (c.fits(v) ==> c.put(v) + rest == bytes)
    {
      var (x, b1) := a.take(bytes).value;
      var (y, rest) := b.take(b1).value;
      assert a.put(x) + b.put(y) + rest == a.put(x) + (b.put(y) + rest);
    }
  }

  lemma PairMeans<A(!new), B(!new)>(a: Codec<A>, b: Codec<B>, x: A, y: B)
    ensures Pair(a, b).fits((x, y)) <==> a.fits(x) && b.fits(y)
    ensures Pair(a, b).good((x, y)) <==> a.good(x) && b.good(y)
  {
  }

  lemma PairTakes<A(!new), B(!new)>(a: Codec<A>, b: Codec<B>, bytes: Bytes)
    ensures Pair(a, b).take(bytes) == PairTake(a, b, bytes)
  {
  }

  // A check of the reader on top of another codec

  function CheckedTake<A>(a: Codec<A>, check: A -> bool, bytes: Bytes): Option<(A, Bytes)>
  {
    var (v, rest) :- a.take(bytes);
    if check(v) then Some((v, rest)) else None
  }

  function Checked<A>(a: Codec<A>, check: A -> bool): Codec<A>
  {
    Codec(a.fits, (v: A) => a.good(v) && check(v), a.put,
          (bytes: Bytes) => CheckedTake(a, check, bytes))
  }

  lemma CheckedLaws<A(!new)>(a: Codec<A>, check: A -> bool)
    ensures RoundTrips(a) ==> RoundTrips(Checked(a, check))
    ensures Canonical(a) ==> Canonical(Checked(a, check))
  {
  }

  // A check of both sides

  function Limited<A>(a: Codec<A>, check: A -> bool): Codec<A>
  {
    Codec((v: A) => a.fits(v) && check(v), (v: A) => a.good(v) && check(v), a.put,
          (bytes: Bytes) => CheckedTake(a, check, bytes))
  }

  lemma LimitedLaws<A(!new)>(a: Codec<A>, check: A -> bool)
    ensures RoundTrips(a) ==> RoundTrips(Limited(a, check))
    ensures Canonical(a) ==> Canonical(Limited(a, check))
  {
  }

  // The same bytes for another type

  function MappedTake<A, B>(a: Codec<A>, to: A -> B, bytes: Bytes): Option<(B, Bytes)>
  {
    var (v, rest) :- a.take(bytes);
    Some((to(v), rest))
  }

  function Mapped<A, B>(a: Codec<A>, to: A -> B, from: B -> A): Codec<B>
  {
    Codec((v: B) => a.fits(from(v)), (v: B) => a.good(from(v)), (v: B) => a.put(from(v)),
          (bytes: Bytes) => MappedTake(a, to, bytes))
  }

  ghost predicate Inverse<A(!new), B(!new)>(to: A -> B, from: B -> A)
  {
    (forall x: A :: from(to(x)) == x) && (forall y: B :: to(from(y)) == y)
  }

  lemma MappedLaws<A(!new), B(!new)>(a: Codec<A>, to: A -> B, from: B -> A)
    requires Inverse(to, from)
    ensures RoundTrips(a) ==> RoundTrips(Mapped(a, to, from))
    ensures Canonical(a) ==> Canonical(Mapped(a, to, from))
  {
    var c := Mapped(a, to, from);
    if RoundTrips(a) {
      forall v: B, rest: Bytes | c.fits(v)
        ensures c.take(c.put(v) + rest) == if c.good(v) then Some((v, rest)) else None
      {
        assert a.fits(from(v));
      }
    }
  }

  lemma MappedMeans<A(!new), B(!new)>(a: Codec<A>, to: A -> B, from: B -> A, v: B)
    ensures Mapped(a, to, from).fits(v) <==> a.fits(from(v))
    ensures Mapped(a, to, from).good(v) <==> a.good(from(v))
  {
  }

  lemma MappedTakes<A(!new), B(!new)>(a: Codec<A>, to: A -> B, from: B -> A, bytes: Bytes)
    ensures Mapped(a, to, from).take(bytes) == MappedTake(a, to, bytes)
  {
  }

  // Bounded lists

  predicate AllOf<A>(values: seq<A>, p: A -> bool)
  {
    forall i :: 0 <= i < |values| ==> p(values[i])
  }

  function VectorTake<A>(a: Codec<A>, max: u16, bytes: Bytes): Option<(seq<A>, Bytes)>
  {
    var (count, rest) :- TakeU16(bytes);
    if count > max then None else TakeMany(rest, count, a.take)
  }

  /** `write_vector` and `read_vector`: both sides check the count against `max`. */
  function Vector<A>(a: Codec<A>, max: u16): Codec<seq<A>>
  {
    Codec((vs: seq<A>) => |vs| <= max && AllOf(vs, a.fits),
          (vs: seq<A>) => AllOf(vs, a.good),
          (vs: seq<A>) => Le(|vs|, 2) + PutAll(vs, a.put),
          (bytes: Bytes) => VectorTake(a, max, bytes))
  }

  lemma {:induction false} ManyRoundTrips<A(!new)>(a: Codec<A>, values: seq<A>, rest: Bytes)
    requires RoundTrips(a) && AllOf(values, a.fits)
    ensures TakeMany(PutAll(values, a.put) + rest, |values|, a.take)
         == if AllOf(values, a.good) then Some((values, rest)) else None
    decreases |values|
  {
    if values == [] {
      assert PutAll(values, a.put) + rest == rest;
    } else {
      var tail := PutAll(values[1..], a.put) + rest;
      assert PutAll(values, a.put) + rest == a.put(values[0]) + tail;
      assert a.fits(values[0]);
      ManyRoundTrips(a, values[1..], rest);
      assert [values[0]] + values[1..] == values;
      AllOfRest(values, a.good);
    }
  }

  lemma AllOfRest<A(!new)>(values: seq<A>, p: A -> bool)
    requires values != []
    ensures AllOf(values, p) <==> p(values[0]) && AllOf(values[1..], p)
  {
    if p(values[0]) && AllOf(values[1..], p) {
      forall i | 0 <= i < |values|
        ensures p(values[i])
      {
        assert i > 0 ==> values[i] == values[1..][i - 1];
      }
    }
  }

  lemma {:induction false} ManyCanonical<A(!new)>(a: Codec<A>, b: Bytes, count: nat)
    requires Canonical(a) && TakeMany(b, count, a.take).Some?
    ensures
      var (values, rest) := TakeMany(b, count, a.take).value;
      && AllOf(values, a.good)
      && (AllOf(values, a.fits) ==> PutAll(values, a.put) + rest == b)
    decreases count
  {
    if count > 0 {
      var (v, rest) := a.take(b).value;
      ManyCanonical(a, rest, count - 1);
      var (vs, left) := TakeMany(rest, count - 1, a.take).value;
      var values := [v] + vs;
      assert values[1..] == vs;
      AllOfRest(values, a.good);
      AllOfRest(values, a.fits);
      assert a.put(v) + PutAll(vs, a.put) + left == a.put(v) + (PutAll(vs, a.put) + left);
    }
  }

  lemma VectorRoundTrips<A(!new)>(a: Codec<A>, max: u16)
    requires RoundTrips(a)
    ensures RoundTrips(Vector(a, max))
  {
    hide TakeLe, RoundTrips, AllOf;
    var c := Vector(a, max);
    forall vs: seq<A>, rest: Bytes | c.fits(vs)
      ensures c.take(c.put(vs) + rest) == if c.good(vs) then Some((vs, rest)) else None
    {
      ManyRoundTrips(a, vs, rest);
      TakeLePut(|vs|, 2, PutAll(vs, a.put) + rest);
      assert c.put(vs) + rest == Le(|vs|, 2) + (PutAll(vs, a.put) + rest);
    }
    assert RoundTrips(c) by { RoundTripsMeans(c); }
  }

  lemma RoundTripsMeans<T(!new)>(c: Codec<T>)
    requires forall v: T, rest: Bytes :: c.fits(v) ==>
      c.take(c.put(v) + rest) == if c.good(v) then Some((v, rest)) else None
    ensures RoundTrips(c)
  {
  }

  lemma VectorCanonical<A(!new)>(a: Codec<A>, max: u16)
    requires Canonical(a)
    ensures Canonical(Vector(a, max))
  {
    hide TakeLe, AllOf, Le;
    var c := Vector(a, max);
    forall b: Bytes | c.take(b).Some?
      ensures
        var (vs, rest) := c.take(b).value;
        c.good(vs) && (c.fits(vs) ==> c.put(vs) + rest == b)
    {
      PutTakeLe(b, 2);
      var (count, left) := TakeU16(b).value;
      ManyCanonical(a, left, count);
      var (vs, rest) := c.take(b).value;
      assert Le(|vs|, 2) + PutAll(vs, a.put) + rest == Le(|vs|, 2) + (PutAll(vs, a.put) + rest);
    }
  }

  // Behind a flag

  function OptionalTake<A>(a: Codec<A>, bytes: Bytes): Option<(Option<A>, Bytes)>
  {
    var (flag, rest) :- TakeU8(bytes);
    if flag > 1 then None
    else if flag == 0 then Some((None, rest))
    else
      var (v, left) :- a.take(rest);
      Some((Some(v), left))
  }

  /** A boolean, and the value only if it is true. */
  function Optional<A>(a: Codec<A>): Codec<Option<A>>
  {
    Codec((v: Option<A>) => v.Some? ==> a.fits(v.value),
          (v: Option<A>) => v.Some? ==> a.good(v.value),
          (v: Option<A>) => if v.Some? then [1] + a.put(v.value) else [0],
          (bytes: Bytes) => OptionalTake(a, bytes))
  }

  lemma OptionalRoundTrips<A(!new)>(a: Codec<A>)
    requires RoundTrips(a)
    ensures RoundTrips(Optional(a))
  {
    var c := Optional(a);
    forall v: Option<A>, rest: Bytes | c.fits(v)
      ensures c.take(c.put(v) + rest) == if c.good(v) then Some((v, rest)) else None
    {
      if v.Some? {
        assert (c.put(v) + rest)[1..] == a.put(v.value) + rest;
      } else {
        assert (c.put(v) + rest)[1..] == rest;
      }
    }
  }

  lemma OptionalPrintsBack<A(!new)>(a: Codec<A>, b: Bytes)
    requires Canonical(a) && OptionalTake(a, b).Some?
    ensures
      var (v, rest) := OptionalTake(a, b).value;
      && (v.Some? ==> a.good(v.value))
      && (v.Some? && a.fits(v.value) ==> [1] + a.put(v.value) + rest == b)
      && (v.None? ==> [0] + rest == b)
  {
    var tail := b[1..];
    assert b == [b[0]] + tail;
    if b[0] == 1 {
      var (x, left) := a.take(tail).value;
      assert [1] + a.put(x) + left == [1] + (a.put(x) + left);
    }
  }

  lemma OptionalCanonical<A(!new)>(a: Codec<A>)
    requires Canonical(a)
    ensures Canonical(Optional(a))
  {
    hide OptionalTake;
    var c := Optional(a);
    forall b: Bytes | c.take(b).Some?
      ensures
        var (v, rest) := c.take(b).value;
        c.good(v) && (c.fits(v) ==> c.put(v) + rest == b)
    {
      assert c.take(b) == OptionalTake(a, b);
      OptionalPrintsBack(a, b);
      var (v, rest) := OptionalTake(a, b).value;
      assert v.Some? ==> c.put(v) == [1] + a.put(v.value);
      assert v.None? ==> c.put(v) == [0];
    }
  }

  // Both laws at once

  lemma PairLaws<A(!new), B(!new)>(a: Codec<A>, b: Codec<B>)
    requires Lawful(a) && Lawful(b)
    ensures Lawful(Pair(a, b))
  {
    hide RoundTrips, Canonical;
    PairRoundTrips(a, b);
    PairCanonical(a, b);
  }

  lemma VectorLaws<A(!new)>(a: Codec<A>, max: u16)
    requires Lawful(a)
    ensures Lawful(Vector(a, max))
  {
    hide RoundTrips, Canonical;
    VectorRoundTrips(a, max);
    VectorCanonical(a, max);
  }

  lemma OptionalLaws<A(!new)>(a: Codec<A>)
    requires Lawful(a)
    ensures Lawful(Optional(a))
  {
    hide RoundTrips, Canonical;
    OptionalRoundTrips(a);
    OptionalCanonical(a);
  }

  // The smallest codecs

  function ByteCodec(): Codec<byte>
  {
    Codec((v: byte) => true, (v: byte) => true, (v: byte) => [v], TakeU8)
  }

  lemma ByteLaws()
    ensures Lawful(ByteCodec())
  {
  }

  /** An enumeration: any value is written, and only the named ones are read. */
  function EnumCodec(least: byte, greatest: byte): Codec<byte>
  {
    Checked(ByteCodec(), (v: byte) => least <= v <= greatest)
  }

  lemma EnumLaws(least: byte, greatest: byte)
    ensures Lawful(EnumCodec(least, greatest))
  {
    hide RoundTrips, Canonical, Checked;
    ByteLaws();
    CheckedLaws(ByteCodec(), (v: byte) => least <= v <= greatest);
  }

  function BoolTake(b: Bytes): Option<(bool, Bytes)>
  {
    var (raw, rest) :- TakeU8(b);
    if raw > 1 then None else Some((raw != 0, rest))
  }

  function BoolCodec(): Codec<bool>
  {
    Codec((v: bool) => true, (v: bool) => true, (v: bool) => [if v then 1 else 0], BoolTake)
  }

  lemma BoolLaws()
    ensures Lawful(BoolCodec())
  {
  }

  function U16Codec(): Codec<u16>
  {
    Codec((v: u16) => true, (v: u16) => true, (v: u16) => Le(v, 2), TakeU16)
  }

  function U32Codec(): Codec<u32>
  {
    Codec((v: u32) => true, (v: u32) => true, (v: u32) => Le(v, 4), TakeU32)
  }

  function U64Codec(): Codec<u64>
  {
    Codec((v: u64) => true, (v: u64) => true, (v: u64) => Le(v, 8), TakeU64)
  }

  lemma NumberLaws()
    ensures Lawful(U16Codec()) && Lawful(U32Codec()) && Lawful(U64Codec())
  {
    hide TakeLe, Le;
    PowersOf256();
    hide Pow256;
    forall v: nat, n: nat, rest: Bytes | v < Pow256(n)
      ensures TakeLe(Le(v, n) + rest, n) == Some((v, rest))
    {
      TakeLePut(v, n, rest);
    }
    forall b: Bytes, n: nat | TakeLe(b, n).Some?
      ensures Le(TakeLe(b, n).value.0, n) + TakeLe(b, n).value.1 == b
    {
      PutTakeLe(b, n);
    }
  }

  /** A text of at most `max` bytes; the reader takes any text its prefix can express. */
  function TextCodec(max: u16): Codec<Bytes>
  {
    Codec((v: Bytes) => |v| <= max, (v: Bytes) => true, PutText, TakeText)
  }

  lemma TextLaws(max: u16)
    ensures Lawful(TextCodec(max))
  {
    hide TakeText, PutText;
    forall v: Bytes, rest: Bytes | |v| <= max
      ensures TakeText(PutText(v) + rest) == Some((v, rest))
    {
      TakePutText(v, rest);
    }
    forall b: Bytes | TakeText(b).Some?
      ensures PutText(TakeText(b).value.0) + TakeText(b).value.1 == b
    {
      PutTakeText(b);
    }
  }
}
