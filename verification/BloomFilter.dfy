/** The reader of bloom.bin: components/bloom_filter/bloom_filter.c and its packed
    little-endian header. */
module BloomFilter {
  import opened Words
  import Fnv1a64

  const HEADER_LEN: nat := 44
  const MAGIC: nat := 0x4D4F4C42
  const VERSION: nat := 1

  datatype Header = Header(magic: nat, version: nat, reserved: nat, mBits: nat, kHashes: nat,
                           nDomains: nat, hashSeed: nat, buildUnixTs: nat, crc32: nat)

  /** bloom_header_t laid over the first 44 bytes. */
  function Unpack(raw: seq<byte>): Header
    requires |raw| >= HEADER_LEN
  {
    Header(LeNat(raw[0..4]), LeNat(raw[4..6]), LeNat(raw[6..8]), LeNat(raw[8..16]), LeNat(raw[16..20]),
           LeNat(raw[20..28]), LeNat(raw[28..32]), LeNat(raw[32..40]), LeNat(raw[40..44]))
  }

  /** bloom_filter_t: a header and the bytes from the bit array to the end of the buffer. */
  datatype Filter = Filter(header: Header, bits: seq<byte>)

  // ------------------------------------------------------------- validation

  /** sizeMod is the number of values of size_t: 2^32 on the device, 2^64 on a host. */
  predicate SizeType(sizeMod: nat) {
    sizeMod == M32 || sizeMod == M64
  }

  /** (size_t)((m_bits + 7) / 8), with the 64-bit addition and the cast both wrapping. */
  function BitarrayBytes(mBits: nat, sizeMod: nat): nat
    requires SizeType(sizeMod)
  {
    (mBits + 7) % M64 / 8 % sizeMod
  }

  predicate LengthAccepted(mBits: nat, len: nat, sizeMod: nat)
    requires SizeType(sizeMod)
  {
    len >= HEADER_LEN && len >= (HEADER_LEN + BitarrayBytes(mBits, sizeMod)) % sizeMod
  }

  predicate Accepted(buf: seq<byte>, sizeMod: nat)
    requires SizeType(sizeMod)
  {
    && |buf| >= HEADER_LEN
    && Unpack(buf).magic == MAGIC
    && Unpack(buf).version == VERSION
    && LengthAccepted(Unpack(buf).mBits, |buf|, sizeMod)
  }

  function FilterOf(buf: seq<byte>): Filter
    requires |buf| >= HEADER_LEN
  {
    Filter(Unpack(buf), buf[HEADER_LEN..])
  }

  datatype InitResult = Rejected | Ready(filter: Filter)

  method Init(buf: seq<byte>, sizeMod: nat) returns (r: InitResult)
    requires SizeType(sizeMod)
    ensures r == if Accepted(buf, sizeMod) then Ready(FilterOf(buf)) else Rejected
  {
    if |buf| < HEADER_LEN {
      return Rejected;
    }
    var hdr := Unpack(buf);
    if hdr.magic != MAGIC || hdr.version != VERSION {
      return Rejected;
    }
    var bitarrayBytes := (hdr.mBits + 7) % M64 / 8 % sizeMod;
    if |buf| < (HEADER_LEN + bitarrayBytes) % sizeMod {
      return Rejected;
    }
    return Ready(Filter(hdr, buf[HEADER_LEN..]));
  }

  /** Offset in the buffer of the byte that holds bit idx. */
  function ByteOf(idx: nat): nat {
    HEADER_LEN + idx / 8
  }

  ghost predicate EveryBitInside(mBits: nat, len: nat) {
    forall idx: nat :: idx < mBits ==> ByteOf(idx) < len
  }

  predicate GeometryFits(mBits: nat, sizeMod: nat) {
    mBits + 7 < M64 && HEADER_LEN + (mBits + 7) / 8 < sizeMod
  }

  lemma EveryBitInsideByLength(mBits: nat, len: nat)
    requires len >= HEADER_LEN
    ensures EveryBitInside(mBits, len) <==> len >= HEADER_LEN + (mBits + 7) / 8
  {
    if mBits > 0 && EveryBitInside(mBits, len) {
      assert ByteOf(mBits - 1) < len;
    }
  }

  /** When something wraps, init accepts a buffer that cannot hold the bit array. */
  lemma ShortestAccepted(mBits: nat, sizeMod: nat) returns (len: nat)
    requires SizeType(sizeMod) && mBits < M64 && !GeometryFits(mBits, sizeMod)
    ensures HEADER_LEN <= len < sizeMod && len < HEADER_LEN + (mBits + 7) / 8
    ensures LengthAccepted(mBits, len, sizeMod)
  {
    var bytes := BitarrayBytes(mBits, sizeMod);
    if mBits + 7 >= M64 {
      assert (mBits + 7) % M64 == mBits + 7 - M64;
      assert bytes == 0;
      len := HEADER_LEN;
    } else {
      var need := (HEADER_LEN + bytes) % sizeMod;
      len := if need < HEADER_LEN then HEADER_LEN else need;
    }
  }

  /** Acceptance bounds every probe exactly when neither the 64-bit addition nor size_t
      wraps on the header's m_bits. */
  lemma AcceptanceBoundsProbes(mBits: nat, sizeMod: nat)
    requires SizeType(sizeMod) && mBits < M64
    ensures GeometryFits(mBits, sizeMod) <==>
              forall len: nat :: len < sizeMod && LengthAccepted(mBits, len, sizeMod) ==> EveryBitInside(mBits, len)
  {
    if GeometryFits(mBits, sizeMod) {
      forall len: nat | len < sizeMod && LengthAccepted(mBits, len, sizeMod)
        ensures EveryBitInside(mBits, len)
      {
        BytesWhenFitting(mBits, len, sizeMod);
        EveryBitInsideByLength(mBits, len);
      }
    } else {
      var len := ShortestAccepted(mBits, sizeMod);
      EveryBitInsideByLength(mBits, len);
      assert len < sizeMod && LengthAccepted(mBits, len, sizeMod);
    }
  }

  // ---------------------------------------------------------------- lookups

  function ProbeIndex(name: seq<byte>, mBits: nat, i: nat): nat
    requires mBits > 0
  {
    (Fnv1a64.Hash(name, Fnv1a64.SEED1) + i * Fnv1a64.Hash(name, Fnv1a64.SEED2) % M64) % M64 % mBits
  }

  /** Probe i of a name is (h1 + i * h2) modulo 2^64, modulo the number of bits, for the FNV-1a
      hashes h1 and h2 under the two published seeds. */
  lemma ProbeIsDoubleHashing(name: seq<byte>, mBits: nat, i: nat, h1: nat, h2: nat)
    requires mBits > 0
    requires h1 == Fnv1a64.Hash(name, 0xCBF2_9CE4_8422_2325) && h2 == Fnv1a64.Hash(name, 0x9E37_79B9_7F4A_7C15)
    ensures ProbeIndex(name, mBits, i) == (h1 + i * h2) % M64 % mBits
  {
    ProbeAt(name, mBits, i, h1, h2, i * h2);
  }

  lemma ProbeAt(name: seq<byte>, mBits: nat, i: nat, h1: nat, h2: nat, t: nat)
    requires mBits > 0 && t == i * h2
    requires h1 == Fnv1a64.Hash(name, Fnv1a64.SEED1) && h2 == Fnv1a64.Hash(name, Fnv1a64.SEED2)
    ensures ProbeIndex(name, mBits, i) == (h1 + t) % M64 % mBits
  {
    ModOfSum(h1, t);
  }

  lemma ModOfSum(a: nat, b: nat)
    ensures (a + b % M64) % M64 == (a + b) % M64
  {
    var q := b / M64;
    var x := a + b % M64;
    assert a + b == (x / M64 + q) * M64 + x % M64;
    DivModUnique(a + b, M64, x / M64 + q, x % M64);
  }

  /** Every accepted buffer starts with the letters BLOM and version 1, low byte first. */
  lemma AcceptedStartsWith(buf: seq<byte>, sizeMod: nat)
    requires SizeType(sizeMod) && Accepted(buf, sizeMod)
    ensures |buf| >= 44 && buf[0..4] == [0x42, 0x4C, 0x4F, 0x4D] && buf[4..6] == [1, 0]
  {
    var m, v := buf[0..4], buf[4..6];
    FourBytes(m, m[0], m[1], m[2], m[3]);
    TwoBytes(v, v[0], v[1]);
  }

  lemma TwoBytes(s: seq<byte>, a: nat, b: nat)
    requires |s| == 2 && s[0] == a && s[1] == b
    ensures LeNat(s) == a + 0x100 * b
  {
    assert s[1..][0] == b && s[1..][1..] == [];
    assert LeNat(s[1..]) == b + 256 * LeNat([]);
  }

  lemma FourBytes(s: seq<byte>, a: nat, b: nat, c: nat, d: nat)
    requires |s| == 4 && s[0] == a && s[1] == b && s[2] == c && s[3] == d
    ensures LeNat(s) == a + 0x100 * b + 0x1_0000 * c + 0x100_0000 * d
  {
    TwoBytes(s[2..], c, d);
    assert s[1..][0] == b && s[1..][1..] == s[2..];
    assert LeNat(s[1..]) == b + 256 * LeNat(s[2..]);
  }

  /** Blank flash is rejected. */
  lemma BlankIsRejected(blank: seq<byte>, sizeMod: nat)
    requires SizeType(sizeMod) && forall i :: 0 <= i < |blank| ==> blank[i] == 255
    ensures !Accepted(blank, sizeMod)
  {
    if |blank| >= HEADER_LEN {
      assert blank[0..4] == [255, 255, 255, 255];
      assert LeNat([255, 255, 255, 255]) == 0xFFFF_FFFF;
    }
  }

  /** Bit idx of the array is binary digit idx mod 8 of byte idx div 8, low digits first. */
  lemma BitSetArithmetic(bits: seq<byte>, idx: nat)
    ensures BitSet(bits, idx) <==> idx / 8 < |bits| && bits[idx / 8] / Pow2(idx % 8) % 2 == 1
  {
    if idx / 8 < |bits| {
      BitByDivision(bits[idx / 8], idx % 8);
    }
  }

  lemma {:induction false} BitByDivision(x: nat, k: nat)
    ensures Bit(x, k) <==> x / Pow2(k) % 2 == 1
  {
    if k > 0 {
      BitByDivision(x / 2, k - 1);
      DivideTwice(x, Pow2(k - 1));
    }
  }

  lemma DivideTwice(x: nat, p: nat)
    requires p > 0
    ensures x / (2 * p) == x / 2 / p
  {
    var q, r := x / 2 / p, x / 2 % p;
    assert x == 2 * (x / 2) + x % 2;
    assert x / 2 == q * p + r;
    assert x == q * (2 * p) + (2 * r + x % 2);
    DivModUnique(x, 2 * p, q, 2 * r + x % 2);
  }

  predicate BitSet(bits: seq<byte>, idx: nat) {
    idx / 8 < |bits| && Bit(bits[idx / 8], idx % 8)
  }

  predicate ProbeHits(f: Filter, name: seq<byte>, i: nat) {
    f.header.mBits > 0 && BitSet(f.bits, ProbeIndex(name, f.header.mBits, i))
  }

  predicate Has(f: Filter, name: seq<byte>) {
    forall i: nat :: i < f.header.kHashes ==> ProbeHits(f, name, i)
  }

  /** What bloom_filter_test needs to stay within its buffer and not divide by zero. */
  predicate Readable(f: Filter) {
    && (f.header.mBits > 0 || f.header.kHashes == 0)
    && (f.header.mBits + 7) / 8 <= |f.bits|
  }

  lemma {:induction false} AndWithOneBit(x: nat, j: nat)
    ensures And(x, Pow2(j)) == 0 <==> !Bit(x, j)
    decreases j
  {
    if x == 0 {
      BitOfZero(j);
    } else if j > 0 {
      AndWithOneBit(x / 2, j - 1);
    } else {
      assert And(x, 1) == (if x % 2 == 1 then 1 else 0) + 2 * And(x / 2, 0);
    }
  }

  method Test(f: Filter, name: seq<byte>) returns (r: bool)
    requires Readable(f)
    ensures r == Has(f, name)
  {
    var h1 := Fnv1a64.HashInFirmware(name, Fnv1a64.SEED1);
    var h2 := Fnv1a64.HashInFirmware(name, Fnv1a64.SEED2);
    var i := 0;
    while i < f.header.kHashes
      invariant i <= f.header.kHashes
      invariant forall j: nat :: j < i ==> ProbeHits(f, name, j)
    {
      var idx := (h1 + i * h2 % M64) % M64 % f.header.mBits;
      AndWithOneBit(f.bits[idx / 8], idx % 8);
      if And(f.bits[idx / 8], Pow2(idx % 8)) == 0 {
        assert !ProbeHits(f, name, i);
        return false;
      }
      i := i + 1;
    }
    return true;
  }

  /** A filter accepted by init can be tested safely exactly when its geometry fits and
      it does not ask for probes into zero bits. */
  lemma AcceptedIsReadable(buf: seq<byte>, sizeMod: nat)
    requires SizeType(sizeMod) && Accepted(buf, sizeMod)
    requires GeometryFits(Unpack(buf).mBits, sizeMod)
    ensures Readable(FilterOf(buf)) <==> Unpack(buf).mBits > 0 || Unpack(buf).kHashes == 0
  {
    BytesWhenFitting(Unpack(buf).mBits, |buf|, sizeMod);
  }

  lemma BytesWhenFitting(mBits: nat, len: nat, sizeMod: nat)
    requires SizeType(sizeMod) && GeometryFits(mBits, sizeMod)
    ensures BitarrayBytes(mBits, sizeMod) == (mBits + 7) / 8
    ensures LengthAccepted(mBits, len, sizeMod) <==> len >= HEADER_LEN + (mBits + 7) / 8
  {
  }

  /** The bytes after the claimed bit array are never looked at. */
  lemma TrailingBytesIgnored(f: Filter, g: Filter, name: seq<byte>)
    requires f.header == g.header && Readable(f)
    requires |f.bits| <= |g.bits| && f.bits == g.bits[..|f.bits|]
    ensures Has(f, name) == Has(g, name)
  {
    forall i: nat | i < f.header.kHashes
      ensures ProbeHits(f, name, i) == ProbeHits(g, name, i)
    {
      var idx := ProbeIndex(name, f.header.mBits, i);
      assert idx / 8 < |f.bits|;
      assert f.bits[idx / 8] == g.bits[..|f.bits|][idx / 8];
    }
  }
}
