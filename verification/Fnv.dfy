/**
 The FNV-1a hash of section 2 of draft-eastlake-fnv, in the 32-bit form of the frame
 trailer and the 64-bit form of the discovery tag, and why one changed byte always
 changes it.
 */
module Fnv {
  import opened ByteLayout

  const PRIME_32: nat := 16777619
  const OFFSET_32: nat := 2166136261
  const MODULUS_32: nat := 0x1_0000_0000
  const INVERSE_32: nat := 0x359C449B

  const PRIME_64: nat := 1099511628211
  const OFFSET_64: nat := 14695981039346656037
  const MODULUS_64: nat := 0x1_0000_0000_0000_0000
  const INVERSE_64: nat := 14886173955864302971

  /** Bitwise exclusive or of two nonnegative numbers. */
  function Xor(a: nat, b: nat): nat
  {
    if a == 0 && b == 0 then 0
    else (a % 2 + b % 2) % 2 + 2 * Xor(a / 2, b / 2)
  }

  /** The low bit and the remaining bits of an exclusive or. */
  lemma XorBits(a: nat, b: nat)
    ensures Xor(a, b) % 2 == (a % 2 + b % 2) % 2
    ensures Xor(a, b) / 2 == Xor(a / 2, b / 2)
  {
  }

  /** Exclusive or with the same number twice gives back the start. */
  lemma {:induction false} XorTwice(a: nat, b: nat)
    ensures Xor(Xor(a, b), b) == a
  {
    hide Xor;
    var x := Xor(a, b);
    XorBits(a, b);
    XorBits(x, b);
    if a != 0 || b != 0 {
      XorTwice(a / 2, b / 2);
    }
    assert (x % 2 + b % 2) % 2 == a % 2;
  }

  lemma {:induction false} XorCommutes(a: nat, b: nat)
    ensures Xor(a, b) == Xor(b, a)
  {
    if a != 0 || b != 0 {
      XorCommutes(a / 2, b / 2);
    }
  }

  function Pow2(n: nat): (r: nat)
    ensures r > 0
  {
    if n == 0 then 1 else 2 * Pow2(n - 1)
  }

  /** Exclusive or of numbers of at most `bits` bits has at most `bits` bits. */
  lemma {:induction false} XorBound(a: nat, b: nat, bits: nat)
    requires a < Pow2(bits) && b < Pow2(bits)
    ensures Xor(a, b) < Pow2(bits)
  {
    if bits > 0 && (a != 0 || b != 0) {
      XorBound(a / 2, b / 2, bits - 1);
    }
  }

  /** Different right operands give different results. */
  lemma XorInjective(a: nat, b: nat, c: nat)
    requires Xor(a, b) == Xor(a, c)
    ensures b == c
  {
    XorCommutes(a, b);
    XorCommutes(a, c);
    XorTwice(b, a);
    XorTwice(c, a);
  }

  /** The two widths in use. */
  datatype Width = Bits32 | Bits64
  {
    function Modulus(): (m: nat)
      ensures m >= 256
    {
      if Bits32? then MODULUS_32 else MODULUS_64
    }
  }

  lemma EightBitsMore(n: nat)
    ensures Pow2(n + 8) == 256 * Pow2(n)
  {
    assert Pow2(n + 2) == 4 * Pow2(n) && Pow2(n + 4) == 16 * Pow2(n);
    assert Pow2(n + 6) == 64 * Pow2(n);
  }

  lemma PowersOfTwo()
    ensures Pow2(32) == MODULUS_32 && Pow2(64) == MODULUS_64
  {
    assert Pow2(0) == 1;
    hide Pow2;
    EightBitsMore(0);
    EightBitsMore(8);
    EightBitsMore(16);
    EightBitsMore(24);
    EightBitsMore(32);
    EightBitsMore(40);
    EightBitsMore(48);
    EightBitsMore(56);
  }

  /** `hash ^= byte; hash *= prime`, in the machine's width. */
  function Step(w: Width, hash: nat, x: byte): (r: nat)
    ensures r < w.Modulus()
  {
    if w.Bits32? then Xor(hash, x) * PRIME_32 % MODULUS_32
    else Xor(hash, x) * PRIME_64 % MODULUS_64
  }

  /** The hash of `data` continued from `hash`. */
  function Fold(w: Width, hash: nat, data: Bytes): (r: nat)
    ensures hash < w.Modulus() ==> r < w.Modulus()
    decreases data
  {
    if data == [] then hash else Fold(w, Step(w, hash, data[0]), data[1..])
  }

  /** The frame checksum: FNV-1a over 32 bits. */
  function Checksum(data: Bytes): u32
  {
    Fold(Bits32, OFFSET_32, data)
  }

  /** Multiplying by a number with an inverse loses nothing modulo `m`. */
  lemma MultiplicationInjective(x: nat, y: nat, p: nat, q: nat, m: nat, k: nat)
    requires m > 0 && p * q == m * k + 1
    requires x < m && y < m
    requires x * p % m == y * p % m
    ensures x == y
  {
    var a := Quotient(x * p, m);
    var b := Quotient(y * p, m);
    SameResidue(x, y, p, q, m, a, b, k, x * p % m);
  }

  lemma Quotient(a: nat, m: nat) returns (c: nat)
    requires m > 0
    ensures a == m * c + a % m
  {
    c := a / m;
  }

  lemma SameResidue(x: nat, y: nat, p: nat, q: nat, m: nat, a: nat, b: nat, k: nat, r: nat)
    requires x * p == m * a + r && y * p == m * b + r && p * q == m * k + 1
    requires x < m && y < m
    ensures x == y
  {
    Distribute(p, x, y);
    Distribute(m, a, b);
    Cancel(x - y, p, q, m, k, a - b);
  }

  lemma Distribute(m: int, a: int, b: int)
    ensures (a - b) * m == a * m - b * m
    ensures m * (a - b) == m * a - m * b
  {
  }

  /** If `m` divides `d * p`, and `p` is invertible modulo `m`, then `m` divides `d`. */
  lemma Cancel(d: int, p: nat, q: nat, m: int, k: nat, t: int)
    requires d * p == m * t && p * q == m * k + 1 && -m < d < m
    ensures d == 0
  {
    assert d * (m * k + 1) == (d * p) * q by {
      assert d * (p * q) == (d * p) * q;
    }
    assert (m * t) * q == m * (t * q);
    assert d * (m * k + 1) == m * (d * k) + d;
    Distribute(m, t * q, d * k);
    SmallMultiple(d, t * q - d * k, m);
  }

  lemma StepXorBound(w: Width, hash: nat, x: byte)
    requires hash < w.Modulus()
    ensures Xor(hash, x) < w.Modulus()
  {
    hide Xor;
    PowersOfTwo();
    XorBound(hash, x, if w.Bits32? then 32 else 64);
  }

  /** The primes are invertible, with the published inverse in the 32-bit case. */
  lemma PrimesInvertible()
    ensures PRIME_32 * INVERSE_32 == MODULUS_32 * 3513497 + 1
    ensures PRIME_64 * INVERSE_64 == MODULUS_64 * 887285111055 + 1
  {
  }

  /** One step is injective in the running hash and in the byte. */
  lemma StepInjective(w: Width, h1: nat, h2: nat, x: byte, y: byte)
    requires h1 < w.Modulus() && h2 < w.Modulus()
    requires Step(w, h1, x) == Step(w, h2, y)
    ensures Xor(h1, x) == Xor(h2, y)
    ensures h1 == h2 ==> x == y
    ensures x == y ==> h1 == h2
  {
    hide Xor;
    StepXorBound(w, h1, x);
    StepXorBound(w, h2, y);
    PrimesInvertible();
    if w.Bits32? {
      MultiplicationInjective(Xor(h1, x), Xor(h2, y), PRIME_32, INVERSE_32, MODULUS_32, 3513497);
    } else {
      MultiplicationInjective(Xor(h1, x), Xor(h2, y), PRIME_64, INVERSE_64, MODULUS_64,
                              887285111055);
    }
    if h1 == h2 {
      XorInjective(h1, x, y);
    }
    if x == y {
      XorTwice(h1, x);
      XorTwice(h2, x);
    }
  }

  /** Hashing a common suffix keeps different hashes different. */
  lemma {:induction false} FoldInjective(w: Width, h1: nat, h2: nat, data: Bytes)
    requires h1 < w.Modulus() && h2 < w.Modulus()
    requires Fold(w, h1, data) == Fold(w, h2, data)
    ensures h1 == h2
    decreases data
  {
    hide Step;
    if data != [] {
      FoldInjective(w, Step(w, h1, data[0]), Step(w, h2, data[0]), data[1..]);
      StepInjective(w, h1, h2, data[0], data[0]);
    }
  }

  /** Changing exactly one byte, anywhere, changes the hash from any start. */
  lemma {:induction false} FoldSubstitution(w: Width, hash: nat, data: Bytes, at: nat, x: byte)
    requires hash < w.Modulus()
    requires at < |data| && data[at] != x
    ensures Fold(w, hash, data[at := x]) != Fold(w, hash, data)
    decreases data
  {
    hide Step;
    var changed := data[at := x];
    if at == 0 {
      assert changed[1..] == data[1..];
      if Fold(w, hash, changed) == Fold(w, hash, data) {
        FoldInjective(w, Step(w, hash, x), Step(w, hash, data[0]), data[1..]);
        StepInjective(w, hash, hash, x, data[0]);
      }
    } else {
      assert changed[1..] == data[1..][at - 1 := x];
      FoldSubstitution(w, Step(w, hash, data[0]), data[1..], at - 1, x);
    }
  }

  /** `WireCodec::checksum` and the loops of `auth_tag`: the bytes folded in one at a time. */
  method ComputeFold(w: Width, start: nat, data: Bytes) returns (hash: nat)
    ensures hash == Fold(w, start, data)
  {
    hash := start;
    for i := 0 to |data|
      invariant Fold(w, hash, data[i..]) == Fold(w, start, data)
    {
      assert data[i..][1..] == data[i + 1..];
      hash := Xor(hash, data[i]);
      hash := if w.Bits32? then hash * PRIME_32 % MODULUS_32 else hash * PRIME_64 % MODULUS_64;
    }
  }
}
