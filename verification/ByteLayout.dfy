/**
 Bytes, fixed-width unsigned integers and their little-endian layout on the wire.

 The widths of the C++ types are subset types of `int`; every truncation the program
 performs appears as an explicit `%`.
 */
module ByteLayout {

  type byte = x: int | 0 <= x < 0x100
  type u16 = x: int | 0 <= x < 0x1_0000
  type u32 = x: int | 0 <= x < 0x1_0000_0000
  type u64 = x: int | 0 <= x < 0x1_0000_0000_0000_0000

  type Bytes = seq<byte>

  datatype Option<+T> = None | Some(value: T)
  {
    predicate IsFailure()
    {
      None?
    }

    function PropagateFailure<U>(): Option<U>
      requires None?
    {
      None
    }

    function Extract(): T
      requires Some?
    {
      value
    }
  }

  /** 256 to the power `n`: the number of values `n` bytes can hold. */
  function Pow256(n: nat): (r: nat)
    ensures r > 0
  {
    if n == 0 then 1 else 256 * Pow256(n - 1)
  }

  lemma PowersOf256()
    ensures Pow256(2) == 0x1_0000
    ensures Pow256(4) == 0x1_0000_0000
    ensures Pow256(8) == 0x1_0000_0000_0000_0000
  {
    assert Pow256(3) == 0x100_0000;
    assert Pow256(6) == 0x1_0000_0000_0000;
  }

  /** The low `n` bytes of `v`, least significant first. */
  function Le(v: nat, n: nat): (r: Bytes)
    ensures |r| == n
  {
    if n == 0 then [] else [v % 256] + Le(v / 256, n - 1)
  }

  /** The number whose bytes, least significant first, are `b`. */
  function FromLe(b: Bytes): (r: nat)
    ensures r < Pow256(|b|)
  {
    if b == [] then 0 else b[0] + 256 * FromLe(b[1..])
  }

  /** Writing a number that fits and reading it back is the identity. */
  lemma {:induction false} FromLeOfLe(v: nat, n: nat)
    requires v < Pow256(n)
    ensures FromLe(Le(v, n)) == v
  {
    if n > 0 {
      FromLeOfLe(v / 256, n - 1);
      assert Le(v, n)[1..] == Le(v / 256, n - 1);
    }
  }

  /** Reading any bytes and writing the number back reproduces them. */
  lemma {:induction false} LeOfFromLe(b: Bytes)
    ensures Le(FromLe(b), |b|) == b
  {
    if b != [] {
      var v := FromLe(b);
      assert v % 256 == b[0] && v / 256 == FromLe(b[1..]);
      LeOfFromLe(b[1..]);
      assert Le(v, |b|) == [b[0]] + b[1..];
    }
  }

  lemma {:induction false} FromLeAppend(b: Bytes, x: byte)
    ensures FromLe(b + [x]) == FromLe(b) + Pow256(|b|) * x
  {
    if b == [] {
      assert (b + [x])[1..] == [];
    } else {
      var p := Pow256(|b| - 1);
      FromLeAppend(b[1..], x);
      assert (b + [x])[1..] == b[1..] + [x];
      assert 256 * (p * x) == (256 * p) * x;
    }
  }

  lemma {:induction false} LeSplit(v: nat, n: nat)
    requires n > 0
    ensures Le(v, n) == Le(v, n - 1) + [v / Pow256(n - 1) % 256]
  {
    if n > 1 {
      LeSplit(v / 256, n - 1);
      DivTwice(v, Pow256(n - 2));
    }
  }

  lemma DivTwice(v: nat, p: nat)
    requires p > 0
    ensures v / 256 / p == v / (256 * p)
  {
    var q := v / 256;
    var a, r := q / p, q % p;
    assert q == p * a + r && v == 256 * (p * a + r) + v % 256;
    assert v == (256 * p) * a + (256 * r + v % 256);
    assert 0 <= 256 * r + v % 256 < 256 * p;
    QuotientUnique(v, 256 * p, a, 256 * r + v % 256);
  }

  /** A multiple of `m` smaller than `m` in magnitude is zero. */
  lemma SmallMultiple(d: int, n: int, m: int)
    requires d == m * n && -m < d < m
    ensures d == 0
  {
    assert n >= 1 ==> m * n >= m;
    assert n <= -1 ==> m * n <= -m;
  }

  lemma QuotientUnique(v: nat, d: nat, q: nat, r: nat)
    requires d > 0 && v == d * q + r && r < d
    ensures v / d == q
  {
    var q', r' := v / d, v % d;
    assert v == d * q' + r';
    assert d * (q - q') == d * q - d * q' == r' - r;
    SmallMultiple(r' - r, q - q', d);
    assert q - q' != 0 ==> d * (q - q') != 0;
  }

  /** The `n`-byte little-endian number stored at offset `at`. */
  function FieldLe(data: Bytes, at: nat, n: nat): (r: nat)
    requires at + n <= |data|
    ensures r < Pow256(n)
  {
    FromLe(data[at..at + n])
  }

  function U16At(data: Bytes, at: nat): u16
    requires at + 2 <= |data|
  {
    FieldLe(data, at, 2)
  }

  function U32At(data: Bytes, at: nat): u32
    requires at + 4 <= |data|
  {
    FieldLe(data, at, 4)
  }

  function U64At(data: Bytes, at: nat): u64
    requires at + 8 <= |data|
  {
    FieldLe(data, at, 8)
  }

  /** `append_u16`, `append_u32` and `append_u64`: the loop over the shift. */
  method AppendLe(out: Bytes, value: nat, width: nat) returns (r: Bytes)
    ensures r == out + Le(value, width)
  {
    r := out;
    var scale: nat := 1;
    for i := 0 to width
      invariant scale == Pow256(i)
      invariant r == out + Le(value, i)
    {
      LeSplit(value, i + 1);
      r := r + [value / scale % 256];
      scale := 256 * scale;
    }
  }

  /** `read_u16`, `read_u32` and `read_u64`: the loop that ORs shifted bytes together. */
  method ReadLe(data: Bytes, at: nat, width: nat) returns (value: nat)
    requires at + width <= |data|
    ensures value == FieldLe(data, at, width)
  {
    value := 0;
    var scale: nat := 1;
    for i := 0 to width
      invariant scale == Pow256(i)
      invariant value == FromLe(data[at..at + i])
    {
      FromLeAppend(data[at..at + i], data[at + i]);
      assert data[at..at + i] + [data[at + i]] == data[at..at + i + 1];
      value := value + scale * data[at + i];
      scale := 256 * scale;
    }
  }

  // Slices

  /** A slice that equals a concatenation splits at the seam. */
  lemma SliceSplit(data: Bytes, at: nat, a: Bytes, b: Bytes)
    requires at + |a| + |b| <= |data|
    requires data[at..at + |a| + |b|] == a + b
    ensures data[at..at + |a|] == a
    ensures data[at + |a|..at + |a| + |b|] == b
  {
    var s := data[at..at + |a| + |b|];
    assert s[..|a|] == a && s[|a|..] == b;
    assert data[at..at + |a|] == s[..|a|];
    assert data[at + |a|..at + |a| + |b|] == s[|a|..];
  }

  /** Adjacent slices join. */
  lemma SliceJoin(data: Bytes, lo: nat, mid: nat, hi: nat)
    requires lo <= mid <= hi <= |data|
    ensures data[lo..mid] + data[mid..hi] == data[lo..hi]
  {
  }

  /** A slice that equals six parts in a row splits into them. */
  lemma SixSlices(data: Bytes, at: nat, a: Bytes, b: Bytes, c: Bytes, d: Bytes, e: Bytes,
                  f: Bytes)
    requires at + |a| + |b| + |c| + |d| + |e| + |f| <= |data|
    requires data[at..at + |a| + |b| + |c| + |d| + |e| + |f|]
          == a + (b + (c + (d + (e + f))))
    ensures
      var c1 := at + |a|;
      var c2 := c1 + |b|;
      var c3 := c2 + |c|;
      var c4 := c3 + |d|;
      var c5 := c4 + |e|;
      && data[at..c1] == a && data[c1..c2] == b && data[c2..c3] == c
      && data[c3..c4] == d && data[c4..c5] == e && data[c5..c5 + |f|] == f
  {
    var r5 := e + f;
    var r4 := d + r5;
    var r3 := c + r4;
    SliceSplit(data, at, a, b + r3);
    SliceSplit(data, at + |a|, b, r3);
    SliceSplit(data, at + |a| + |b|, c, r4);
    SliceSplit(data, at + |a| + |b| + |c|, d, r5);
    SliceSplit(data, at + |a| + |b| + |c| + |d|, e, f);
  }

  /** Six slices in a row join. */
  lemma SixJoin(data: Bytes, c0: nat, c1: nat, c2: nat, c3: nat, c4: nat, c5: nat, c6: nat)
    requires c0 <= c1 <= c2 <= c3 <= c4 <= c5 <= c6 <= |data|
    ensures data[c0..c1] + (data[c1..c2] + (data[c2..c3]
            + (data[c3..c4] + (data[c4..c5] + data[c5..c6]))))
         == data[c0..c6]
  {
    SliceJoin(data, c4, c5, c6);
    SliceJoin(data, c3, c4, c6);
    SliceJoin(data, c2, c3, c6);
    SliceJoin(data, c1, c2, c6);
    SliceJoin(data, c0, c1, c6);
  }
}
