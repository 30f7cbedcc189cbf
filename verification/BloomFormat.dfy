/** The writer of bloom.bin: tools/bloom_format.py and build_bitarray of
    tools/blocklist_build.py. */
module BloomFormat {
  import opened Words
  import opened BloomFilter
  import opened CStrings
  import Crc32
  import Fnv1a64

  // ------------------------------------------------------------- normalization

  predicate IsSpace(c: byte) {
    c == 32 || 9 <= c <= 13 || 28 <= c <= 31
  }

  function StripLeft(s: seq<byte>): seq<byte> {
    if s != [] && IsSpace(s[0]) then StripLeft(s[1..]) else s
  }

  function StripRight(s: seq<byte>): seq<byte> {
    if s != [] && IsSpace(s[|s| - 1]) then StripRight(s[..|s| - 1]) else s
  }

  /** d.strip().lower(), then one trailing dot dropped. */
  function Normalize(domain: seq<byte>): seq<byte> {
    var d := Lower(StripRight(StripLeft(domain)));
    if d != [] && d[|d| - 1] == 46 then d[..|d| - 1] else d
  }

  lemma {:induction false} StripsLeft(before: seq<byte>, core: seq<byte>)
    requires (forall c :: c in before ==> IsSpace(c)) && core != [] && !IsSpace(core[0])
    ensures StripLeft(before + core) == core
  {
    if before == [] {
      assert before + core == core;
    } else {
      assert before[0] in before && (before + core)[1..] == before[1..] + core;
      StripsLeft(before[1..], core);
    }
  }

  lemma {:induction false} StripsRight(core: seq<byte>, after: seq<byte>)
    requires (forall c :: c in after ==> IsSpace(c)) && core != [] && !IsSpace(core[|core| - 1])
    ensures StripRight(core + after) == core
    decreases |after|
  {
    if after == [] {
      assert core + after == core;
    } else {
      var init := after[..|after| - 1];
      assert after[|after| - 1] in after && (core + after)[..|core + after| - 1] == core + init;
      StripsRight(core, init);
    }
  }

  lemma StripsSpaces(before: seq<byte>, core: seq<byte>, after: seq<byte>)
    requires forall c :: c in before + after ==> IsSpace(c)
    requires core != [] && !IsSpace(core[0]) && !IsSpace(core[|core| - 1])
    ensures StripRight(StripLeft(before + core + after)) == core
  {
    assert forall c :: c in before ==> c in before + after;
    assert forall c :: c in after ==> c in before + after;
    assert before + core + after == before + (core + after);
    StripsLeft(before, core + after);
    StripsRight(core, after);
  }

  // ------------------------------------------------------------------- probes

  /** All k probe positions of a domain. */
  function Probes(domain: seq<byte>, mBits: nat, kHashes: nat): seq<nat>
    requires mBits > 0
  {
    seq(kHashes, i requires 0 <= i < kHashes => ProbeIndex(Normalize(domain), mBits, i))
  }

  method BitIndices(domain: seq<byte>, mBits: nat, kHashes: nat) returns (r: seq<nat>)
    requires mBits > 0
    ensures r == Probes(domain, mBits, kHashes)
  {
    var data := Normalize(domain);
    var h1 := Fnv1a64.HashInHostTool(data, Fnv1a64.SEED1);
    var h2 := Fnv1a64.HashInHostTool(data, Fnv1a64.SEED2);
    r := [];
    for i := 0 to kHashes
      invariant |r| == i && forall j :: 0 <= j < i ==> r[j] == ProbeIndex(data, mBits, j)
    {
      var combined := Combined(h1, h2, i);
      r := r + [combined % mBits];
    }
  }

  /** Both masks of the double-hashing sum. */
  method Combined(h1: nat, h2: nat, i: nat) returns (r: nat)
    ensures r == (h1 + i * h2 % M64) % M64
  {
    Fnv1a64.Mask64(i * h2);
    var term := And(i * h2, Fnv1a64.MASK64);
    Fnv1a64.Mask64(h1 + term);
    r := And(h1 + term, Fnv1a64.MASK64);
  }

  // ---------------------------------------------------------------- bit array

  ghost predicate Marked(domains: seq<seq<byte>>, mBits: nat, kHashes: nat, idx: nat)
    requires mBits > 0
  {
    exists a :: 0 <= a < |domains| && idx in Probes(domains[a], mBits, kHashes)
  }

  /** Exactly the bits that some listed domain probes are set. */
  ghost predicate Built(bits: seq<byte>, domains: seq<seq<byte>>, mBits: nat, kHashes: nat)
    requires mBits > 0
  {
    && |bits| == (mBits + 7) / 8
    && forall idx: nat :: BitSet(bits, idx) <==> Marked(domains, mBits, kHashes, idx)
  }

  lemma SetOneBit(bits: seq<byte>, idx: nat)
    requires idx / 8 < |bits|
    ensures Or(bits[idx / 8], Pow2(idx % 8)) < 256
    ensures forall j: nat ::
              BitSet(bits[idx / 8 := Or(bits[idx / 8], Pow2(idx % 8))], j) <==> BitSet(bits, j) || j == idx
  {
    var old8 := bits[idx / 8];
    assert Pow2(8) == 256;
    Pow2Grows(idx % 8, 8);
    OrBound(old8, Pow2(idx % 8), 8);
    var new8: byte := Or(old8, Pow2(idx % 8));
    forall j: nat
      ensures BitSet(bits[idx / 8 := new8], j) <==> BitSet(bits, j) || j == idx
    {
      BitOfOr(old8, Pow2(idx % 8), j % 8);
      BitOfPow2(idx % 8, j % 8);
    }
  }

  lemma {:induction false} Pow2Grows(a: nat, b: nat)
    requires a < b
    ensures Pow2(a) < Pow2(b)
  {
    if a + 1 < b {
      Pow2Grows(a, b - 1);
    }
  }

  method MarkDomain(bits: array<byte>, domain: seq<byte>, mBits: nat, kHashes: nat)
    requires mBits > 0 && bits.Length == (mBits + 7) / 8
    modifies bits
    ensures forall idx: nat ::
              BitSet(bits[..], idx) <==> BitSet(old(bits[..]), idx) || idx in Probes(domain, mBits, kHashes)
  {
    var indices := BitIndices(domain, mBits, kHashes);
    for i := 0 to |indices|
      invariant forall idx: nat :: BitSet(bits[..], idx) <==> BitSet(old(bits[..]), idx) || idx in indices[..i]
    {
      var idx := indices[i];
      ghost var before := bits[..];
      SetOneBit(before, idx);
      bits[idx / 8] := Or(bits[idx / 8], Pow2(idx % 8));
      assert bits[..] == before[idx / 8 := Or(before[idx / 8], Pow2(idx % 8))];
      assert indices[..i + 1] == indices[..i] + [idx];
    }
    assert indices[..|indices|] == indices;
  }

  method BuildBitarray(domains: seq<seq<byte>>, mBits: nat, kHashes: nat) returns (bits: array<byte>)
    requires mBits > 0
    ensures Built(bits[..], domains, mBits, kHashes)
  {
    bits := new byte[(mBits + 7) / 8](_ => 0);
    forall idx: nat ensures !BitSet(bits[..], idx) {
      BitOfZero(idx % 8);
    }
    for a := 0 to |domains|
      invariant forall idx: nat :: BitSet(bits[..], idx) <==> Marked(domains[..a], mBits, kHashes, idx)
    {
      ghost var before := bits[..];
      MarkDomain(bits, domains[a], mBits, kHashes);
      forall idx: nat
        ensures BitSet(bits[..], idx) <==> Marked(domains[..a + 1], mBits, kHashes, idx)
      {
        MarkedGrows(domains[..a + 1], mBits, kHashes, idx);
        assert domains[..a + 1][..a] == domains[..a];
        assert BitSet(bits[..], idx) <==> BitSet(before, idx) || idx in Probes(domains[a], mBits, kHashes);
      }
    }
    assert domains[..|domains|] == domains;
  }

  lemma MarkedGrows(domains: seq<seq<byte>>, mBits: nat, kHashes: nat, idx: nat)
    requires mBits > 0 && domains != []
    ensures Marked(domains, mBits, kHashes, idx) <==>
              Marked(domains[..|domains| - 1], mBits, kHashes, idx) ||
              idx in Probes(domains[|domains| - 1], mBits, kHashes)
  {
    var init := domains[..|domains| - 1];
    assert domains == init + [domains[|domains| - 1]];
    MarkedSplit(init, domains[|domains| - 1], mBits, kHashes, idx);
  }

  lemma MarkedSplit(init: seq<seq<byte>>, last: seq<byte>, mBits: nat, kHashes: nat, idx: nat)
    requires mBits > 0
    ensures Marked(init + [last], mBits, kHashes, idx) <==>
              Marked(init, mBits, kHashes, idx) || idx in Probes(last, mBits, kHashes)
  {
    var domains := init + [last];
    if Marked(init, mBits, kHashes, idx) {
      var a :| 0 <= a < |init| && idx in Probes(init[a], mBits, kHashes);
      assert domains[a] == init[a];
    }
    if idx in Probes(last, mBits, kHashes) {
      assert domains[|init|] == last;
    }
  }

  // ------------------------------------------------------------------- header

  /** The field widths of struct.pack("<IHHQIQIQI"). */
  predicate FieldsFit(h: Header) {
    && h.magic < M32 && h.version < M16 && h.reserved < M16 && h.mBits < M64 && h.kHashes < M32
    && h.nDomains < M64 && h.hashSeed < M32 && h.buildUnixTs < M64 && h.crc32 < M32
  }

  function Pack(h: Header): (raw: seq<byte>)
    ensures |raw| == HEADER_LEN
  {
    LeBytes(h.magic, 4) + LeBytes(h.version, 2) + LeBytes(h.reserved, 2) + LeBytes(h.mBits, 8) +
    LeBytes(h.kHashes, 4) + LeBytes(h.nDomains, 8) + LeBytes(h.hashSeed, 4) + LeBytes(h.buildUnixTs, 8) +
    LeBytes(h.crc32, 4)
  }

  lemma UnpackPack(h: Header, rest: seq<byte>)
    requires FieldsFit(h)
    ensures Unpack(Pack(h) + rest) == h
  {
    WordSizes();
    LeRoundTrip(h.magic, 4);
    LeRoundTrip(h.version, 2);
    LeRoundTrip(h.reserved, 2);
    LeRoundTrip(h.mBits, 8);
    LeRoundTrip(h.kHashes, 4);
    LeRoundTrip(h.nDomains, 8);
    LeRoundTrip(h.hashSeed, 4);
    LeRoundTrip(h.buildUnixTs, 8);
    LeRoundTrip(h.crc32, 4);
    SliceFields(LeBytes(h.magic, 4), LeBytes(h.version, 2), LeBytes(h.reserved, 2), LeBytes(h.mBits, 8),
                LeBytes(h.kHashes, 4), LeBytes(h.nDomains, 8), LeBytes(h.hashSeed, 4),
                LeBytes(h.buildUnixTs, 8), LeBytes(h.crc32, 4), rest);
  }

  /** Where the fields lie in the file: little-endian at offsets 0, 4, 6, 8, 16, 20, 28, 32, 40. */
  lemma HeaderLayout(h: Header)
    requires FieldsFit(h)
    ensures var raw := Pack(h);
            && |raw| == 44
            && LeNat(raw[0..4]) == h.magic && LeNat(raw[4..6]) == h.version && LeNat(raw[6..8]) == h.reserved
            && LeNat(raw[8..16]) == h.mBits && LeNat(raw[16..20]) == h.kHashes && LeNat(raw[20..28]) == h.nDomains
            && LeNat(raw[28..32]) == h.hashSeed && LeNat(raw[32..40]) == h.buildUnixTs && LeNat(raw[40..44]) == h.crc32
  {
    UnpackPack(h, []);
    assert Pack(h) + [] == Pack(h);
  }

  lemma SliceFields(f0: seq<byte>, f1: seq<byte>, f2: seq<byte>, f3: seq<byte>, f4: seq<byte>,
                    f5: seq<byte>, f6: seq<byte>, f7: seq<byte>, f8: seq<byte>, rest: seq<byte>)
    requires |f0| == 4 && |f1| == 2 && |f2| == 2 && |f3| == 8 && |f4| == 4
    requires |f5| == 8 && |f6| == 4 && |f7| == 8 && |f8| == 4
    ensures var raw := f0 + f1 + f2 + f3 + f4 + f5 + f6 + f7 + f8 + rest;
            && raw[0..4] == f0 && raw[4..6] == f1 && raw[6..8] == f2 && raw[8..16] == f3 && raw[16..20] == f4
            && raw[20..28] == f5 && raw[28..32] == f6 && raw[32..40] == f7 && raw[40..44] == f8
  {
    var raw := f0 + f1 + f2 + f3 + f4 + f5 + f6 + f7 + f8 + rest;
    assert raw[0..4] == f0;
    assert raw[4..6] == f1;
    assert raw[6..8] == f2;
    assert raw[8..16] == f3;
    assert raw[16..20] == f4;
    assert raw[20..28] == f5;
    assert raw[28..32] == f6;
    assert raw[32..40] == f7;
    assert raw[40..44] == f8;
  }

  /** pack_header: the checksum is zlib's, i.e. the one of section 8 of RFC 1952. */
  function HeaderFor(mBits: nat, kHashes: nat, nDomains: nat, ts: nat, bits: seq<byte>): Header {
    Header(MAGIC, VERSION, 0, mBits, kHashes, nDomains, 0, ts,
           Xor(Crc32.UpdateCrc(Crc32.ONES, bits), Crc32.ONES))
  }

  function Image(mBits: nat, kHashes: nat, nDomains: nat, ts: nat, bits: seq<byte>): seq<byte> {
    Pack(HeaderFor(mBits, kHashes, nDomains, ts, bits)) + bits
  }

  /** The header the firmware's update check looks at: does the checksum it computes
      over the claimed bit array match the stored one? */
  predicate ChecksumMatches(f: Filter, bytes: nat) {
    bytes <= |f.bits| && Crc32.Checksum(f.bits[..bytes]) == f.header.crc32
  }

  lemma HeaderReadsBack(h: Header, tail: seq<byte>)
    requires FieldsFit(h)
    ensures FilterOf(Pack(h) + tail) == Filter(h, tail)
  {
    UnpackPack(h, tail);
    assert (Pack(h) + tail)[HEADER_LEN..] == tail;
  }

  lemma HeaderForFits(mBits: nat, kHashes: nat, nDomains: nat, ts: nat, bits: seq<byte>)
    requires mBits < M64 && kHashes < M32 && nDomains < M64 && ts < M64
    ensures FieldsFit(HeaderFor(mBits, kHashes, nDomains, ts, bits))
    ensures HeaderFor(mBits, kHashes, nDomains, ts, bits).crc32 == Crc32.Checksum(bits)
  {
    Crc32.ChecksumIsRfc1952(bits);
    Crc32.ChecksumBound(bits);
  }

  lemma AcceptedByFields(buf: seq<byte>, f: Filter, sizeMod: nat)
    requires SizeType(sizeMod)
    requires |buf| >= HEADER_LEN && FilterOf(buf) == f
    ensures Accepted(buf, sizeMod) <==>
              f.header.magic == MAGIC && f.header.version == VERSION &&
              LengthAccepted(f.header.mBits, |buf|, sizeMod)
  {
  }

  lemma ImageReadsBack(mBits: nat, kHashes: nat, nDomains: nat, ts: nat, bits: seq<byte>, padding: seq<byte>)
    requires mBits < M64 && kHashes < M32 && nDomains < M64 && ts < M64
    ensures FilterOf(Image(mBits, kHashes, nDomains, ts, bits) + padding) ==
            Filter(HeaderFor(mBits, kHashes, nDomains, ts, bits), bits + padding)
  {
    var h := HeaderFor(mBits, kHashes, nDomains, ts, bits);
    HeaderForFits(mBits, kHashes, nDomains, ts, bits);
    assert Image(mBits, kHashes, nDomains, ts, bits) + padding == Pack(h) + (bits + padding);
    HeaderReadsBack(h, bits + padding);
  }

  /** The numbers in the first 44 bytes of a built image; both reserved fields are zero. */
  lemma ImageLayout(mBits: nat, kHashes: nat, nDomains: nat, ts: nat, bits: seq<byte>)
    requires mBits < M64 && kHashes < M32 && nDomains < M64 && ts < M64
    ensures var image := Image(mBits, kHashes, nDomains, ts, bits);
            && |image| == 44 + |bits| && image[44..] == bits
            && LeNat(image[6..8]) == 0 && LeNat(image[28..32]) == 0
            && LeNat(image[8..16]) == mBits && LeNat(image[16..20]) == kHashes
            && LeNat(image[20..28]) == nDomains && LeNat(image[32..40]) == ts
            && LeNat(image[40..44]) == Crc32.Checksum(bits)
  {
    var h := HeaderFor(mBits, kHashes, nDomains, ts, bits);
    HeaderForFits(mBits, kHashes, nDomains, ts, bits);
    HeaderLayout(h);
    HeadOfImage(Pack(h), bits);
  }

  lemma HeadOfImage(raw: seq<byte>, bits: seq<byte>)
    requires |raw| == 44
    ensures forall i, j :: 0 <= i <= j <= 44 ==> (raw + bits)[i..j] == raw[i..j]
  {
  }

  /** The built image, with anything after it (flash padding), is accepted with the
      fields that were packed, and its checksum holds. */
  lemma ImageIsAccepted(mBits: nat, kHashes: nat, nDomains: nat, ts: nat, bits: seq<byte>,
                        padding: seq<byte>, sizeMod: nat)
    requires SizeType(sizeMod) && GeometryFits(mBits, sizeMod)
    requires kHashes < M32 && nDomains < M64 && ts < M64
    requires |bits| == (mBits + 7) / 8
    ensures var image := Image(mBits, kHashes, nDomains, ts, bits) + padding;
            && Accepted(image, sizeMod)
            && FilterOf(image) == Filter(HeaderFor(mBits, kHashes, nDomains, ts, bits), bits + padding)
            && ChecksumMatches(FilterOf(image), BitarrayBytes(mBits, sizeMod))
  {
    ImageReadsBack(mBits, kHashes, nDomains, ts, bits, padding);
    HeaderForFits(mBits, kHashes, nDomains, ts, bits);
    var image := Image(mBits, kHashes, nDomains, ts, bits) + padding;
    var f := FilterOf(image);
    BytesWhenFitting(mBits, |image|, sizeMod);
    AcceptedByFields(image, f, sizeMod);
    assert f.bits[..|bits|] == bits;
  }

  /** An image that claims no bits but some probes is accepted, and cannot be probed. */
  lemma ZeroBitImageIsUnreadable(kHashes: nat, sizeMod: nat)
    requires SizeType(sizeMod) && 0 < kHashes < M32
    ensures Accepted(Image(0, kHashes, 0, 0, []), sizeMod)
    ensures !Readable(FilterOf(Image(0, kHashes, 0, 0, [])))
  {
    ImageIsAccepted(0, kHashes, 0, 0, [], [], sizeMod);
    assert Image(0, kHashes, 0, 0, []) + [] == Image(0, kHashes, 0, 0, []);
  }

  /** A download cut short anywhere is rejected. */
  lemma PrefixIsRejected(mBits: nat, kHashes: nat, nDomains: nat, ts: nat, bits: seq<byte>, n: nat, sizeMod: nat)
    requires SizeType(sizeMod) && GeometryFits(mBits, sizeMod)
    requires kHashes < M32 && nDomains < M64 && ts < M64
    requires |bits| == (mBits + 7) / 8
    requires n < |Image(mBits, kHashes, nDomains, ts, bits)|
    ensures !Accepted(Image(mBits, kHashes, nDomains, ts, bits)[..n], sizeMod)
  {
    var h := HeaderFor(mBits, kHashes, nDomains, ts, bits);
    var cut := Image(mBits, kHashes, nDomains, ts, bits)[..n];
    if n >= HEADER_LEN {
      HeaderForFits(mBits, kHashes, nDomains, ts, bits);
      assert cut == Pack(h) + bits[..n - HEADER_LEN];
      HeaderReadsBack(h, bits[..n - HEADER_LEN]);
      BytesWhenFitting(mBits, n, sizeMod);
      AcceptedByFields(cut, FilterOf(cut), sizeMod);
    }
  }

  /** A filter whose claimed bit array is the one built from these domains, whatever
      follows it in the buffer. */
  ghost predicate BuiltFilter(f: Filter, domains: seq<seq<byte>>) {
    && f.header.mBits > 0
    && (f.header.mBits + 7) / 8 <= |f.bits|
    && Built(f.bits[..(f.header.mBits + 7) / 8], domains, f.header.mBits, f.header.kHashes)
  }

  lemma ImageIsBuiltFilter(mBits: nat, kHashes: nat, nDomains: nat, ts: nat, bits: seq<byte>,
                           padding: seq<byte>, domains: seq<seq<byte>>)
    requires 0 < mBits < M64 && kHashes < M32 && nDomains < M64 && ts < M64
    requires Built(bits, domains, mBits, kHashes)
    ensures BuiltFilter(FilterOf(Image(mBits, kHashes, nDomains, ts, bits) + padding), domains)
  {
    ImageReadsBack(mBits, kHashes, nDomains, ts, bits, padding);
    assert (bits + padding)[..|bits|] == bits;
  }

  /** No false negatives: whatever the builder listed, the firmware's filter has. */
  lemma NoFalseNegatives(f: Filter, domains: seq<seq<byte>>, d: seq<byte>)
    requires BuiltFilter(f, domains) && d in domains
    ensures Readable(f) && Has(f, Normalize(d))
  {
    var mBits, kHashes := f.header.mBits, f.header.kHashes;
    var bits := f.bits[..(mBits + 7) / 8];
    forall i: nat | i < kHashes ensures ProbeHits(f, Normalize(d), i) {
      var idx := ProbeIndex(Normalize(d), mBits, i);
      assert Probes(d, mBits, kHashes)[i] == idx;
      assert Marked(domains, mBits, kHashes, idx);
      assert BitSet(bits, idx);
    }
  }
}
