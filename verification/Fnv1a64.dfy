/** FNV-1a, 64 bits, from components/bloom_filter/fnv1a64.c and tools/bloom_format.py:
    the firmware multiplies in wrapping uint64_t, the host tool masks unbounded
    integers. Both are the same function, and that function is a bijection of its seed. */
module Fnv1a64 {
  import opened Words

  const PRIME: nat := 0x100000001B3
  const SEED1: nat := 0xCBF29CE484222325
  const SEED2: nat := 0x9E3779B97F4A7C15
  const MASK64: nat := 0xFFFF_FFFF_FFFF_FFFF
  const INVERSE: nat := 0xCE965057AFF6957B  // of PRIME modulo 2^64

  function Hash(data: seq<byte>, seed: nat): nat {
    if data == [] then seed
    else Xor(Hash(data[..|data| - 1], seed), data[|data| - 1]) * PRIME % M64
  }

  /** uint64_t multiply wraps modulo 2^64. */
  method HashInFirmware(data: seq<byte>, seed: nat) returns (h: nat)
    ensures h == Hash(data, seed)
  {
    h := seed;
    for i := 0 to |data|
      invariant h == Hash(data[..i], seed)
    {
      assert data[..i + 1][..i] == data[..i];
      h := Xor(h, data[i]);
      h := h * PRIME % M64;
    }
    assert data[..|data|] == data;
  }

  lemma Mask64(x: nat)
    ensures And(x, MASK64) == x % M64
  {
    WordSizes();
    MaskIsModulo(x, 64);
  }

  /** Python integers do not wrap: every product is masked. */
  method HashInHostTool(data: seq<byte>, seed: nat) returns (h: nat)
    ensures h == Hash(data, seed)
  {
    h := seed;
    for i := 0 to |data|
      invariant h == Hash(data[..i], seed)
    {
      assert data[..i + 1][..i] == data[..i];
      h := Xor(h, data[i]);
      Mask64(h * PRIME);
      h := And(h * PRIME, MASK64);
    }
    assert data[..|data|] == data;
  }

  /** The published check values of 64-bit FNV-1a: the offset basis for the empty message, and the
      hash of "a". */
  lemma CheckValues(basis: nat)
    requires basis == 0xCBF2_9CE4_8422_2325
    ensures Hash([], basis) == basis && Hash([97], basis) == 0xAF63_DC4C_8601_EC8C
  {
    HashOfOne(97, basis);
    XorLowByte(basis, 0x25, 0xCB_F29C_E484_2223, 97);
    assert Xor(0x25, 97) == 0x44;
    DivModUnique(0xCBF2_9CE4_8422_2344 * 0x100_0000_01B3, M64, 0xcbf29ce5de, 0xAF63_DC4C_8601_EC8C);
  }

  lemma HashOfOne(b: byte, seed: nat)
    ensures Hash([b], seed) == Xor(seed, b) * PRIME % M64
  {
    assert [b][..0] == [];
  }

  lemma XorLowByte(x: nat, low: byte, high: nat, b: byte)
    requires x == low + 256 * high
    ensures Xor(x, b) == Xor(low, b) + 256 * high
  {
    XorDisjointByte(low, high);
    XorBytes(low, b);
    XorDisjointByte(Xor(low, b), high);
    XorAssociates(low, 256 * high, b);
    XorCommutes(256 * high, b);
    XorAssociates(low, b, 256 * high);
  }

  lemma {:induction false} HashBound(data: seq<byte>, seed: nat)
    requires seed < M64
    ensures Hash(data, seed) < M64
  {
  }

  // -------------------------------------------------------------- invertibility

  /** The seed from which `data` hashes to h. */
  function SeedOf(data: seq<byte>, h: nat): nat {
    if data == [] then h
    else SeedOf(data[..|data| - 1], Xor(h * INVERSE % M64, data[|data| - 1]))
  }

  lemma ReduceFactor(x: nat, y: nat)
    ensures x % M64 * y % M64 == x * y % M64
  {
    var q, r := x / M64, x % M64;
    assert x * y == (q * M64 + r) * y == (q * y) * M64 + r * y;
    var z := r * y;
    DivModUnique(x * y, M64, q * y + z / M64, z % M64);
  }

  lemma MultiplyUndone(x: nat, p: nat, q: nat)
    requires x < M64 && p * q % M64 == 1
    ensures x * p % M64 * q % M64 == x
  {
    ReduceFactor(x * p, q);
    assert x * p * q == p * q * x;
    ReduceFactor(p * q, x);
  }

  lemma PrimeIsInvertible()
    ensures PRIME * INVERSE % M64 == 1 && INVERSE * PRIME % M64 == 1
  {
  }

  lemma ByteXorBound(h: nat, b: byte)
    requires h < M64
    ensures Xor(h, b) < M64
  {
    WordSizes();
    XorBound(h, b, 64);
  }

  lemma StepUndone(h: nat, b: byte)
    requires h < M64
    ensures Xor(Xor(h, b) * PRIME % M64 * INVERSE % M64, b) == h
    ensures Xor(h * INVERSE % M64, b) < M64
    ensures Xor(Xor(h * INVERSE % M64, b), b) * PRIME % M64 == h
  {
    PrimeIsInvertible();
    ByteXorBound(h, b);
    MultiplyUndone(Xor(h, b), PRIME, INVERSE);
    XorCancels(h, b);
    var g := h * INVERSE % M64;
    ByteXorBound(g, b);
    XorCancels(g, b);
    MultiplyUndone(h, INVERSE, PRIME);
  }

  /** For any fixed message the hash is a bijection of the 64-bit seed. */
  lemma {:induction false} HashIsBijectiveInSeed(data: seq<byte>, seed: nat, h: nat)
    requires seed < M64 && h < M64
    ensures Hash(data, seed) == h <==> seed == SeedOf(data, h)
    ensures SeedOf(data, h) < M64
    decreases |data|
  {
    if data != [] {
      var init, b := data[..|data| - 1], data[|data| - 1];
      var before := Hash(init, seed);
      HashBound(init, seed);
      StepUndone(before, b);
      StepUndone(h, b);
      HashIsBijectiveInSeed(init, seed, Xor(h * INVERSE % M64, b));
    }
  }

  /** The two hashes of the double-hashing scheme never coincide. */
  lemma TwoSeedsNeverAgree(data: seq<byte>)
    ensures Hash(data, SEED1) != Hash(data, SEED2)
  {
    var h := Hash(data, SEED1);
    HashBound(data, SEED1);
    HashIsBijectiveInSeed(data, SEED1, h);
    HashIsBijectiveInSeed(data, SEED2, h);
  }

  lemma {:induction false} HashConcat(a: seq<byte>, b: seq<byte>, seed: nat)
    ensures Hash(a + b, seed) == Hash(b, Hash(a, seed))
    decreases |b|
  {
    if b == [] {
      assert a + b == a;
    } else {
      assert (a + b)[..|a + b| - 1] == a + b[..|b| - 1];
      HashConcat(a, b[..|b| - 1], seed);
    }
  }

  /** One changed byte always changes the hash. */
  lemma OneByteNeverCollides(before: seq<byte>, x: byte, y: byte, after: seq<byte>, seed: nat)
    requires seed < M64 && x != y
    ensures Hash(before + [x] + after, seed) != Hash(before + [y] + after, seed)
  {
    var h := Hash(before, seed);
    HashBound(before, seed);
    HashConcat(before, [x], seed);
    HashConcat(before, [y], seed);
    HashConcat(before + [x], after, seed);
    HashConcat(before + [y], after, seed);
    var hx, hy := Hash([x], h), Hash([y], h);
    HashBound([x], h);
    HashBound([y], h);
    OneByteSeparates(h, x, y);
    HashIsBijectiveInSeed(after, hx, Hash(after, hy));
    HashBound(after, hy);
    HashIsBijectiveInSeed(after, hy, Hash(after, hy));
  }

  lemma OneByteSeparates(h: nat, x: byte, y: byte)
    requires h < M64 && x != y
    ensures Hash([x], h) != Hash([y], h)
  {
    assert [x][..0] == [] && [y][..0] == [];
    PrimeIsInvertible();
    ByteXorBound(h, x);
    ByteXorBound(h, y);
    MultiplyUndone(Xor(h, x), PRIME, INVERSE);
    MultiplyUndone(Xor(h, y), PRIME, INVERSE);
    XorCommutes(h, x);
    XorCommutes(h, y);
    XorCancels(x, h);
    XorCancels(y, h);
  }
}
