/** What the updater's checks (components/blocklist_updater/blocklist_updater.c) make of an
    image that was damaged on its way from the builder to the device. */
module Delivery {
  import opened Words
  import opened BloomFilter
  import opened BloomFormat
  import opened BloomUpdate
  import Crc32

  /** What the builder writes into bloom.bin. */
  datatype Publication = Publication(mBits: nat, kHashes: nat, nDomains: nat, ts: nat, bits: seq<byte>)

  predicate PublicationOk(p: Params, pub: Publication) {
    && SizeType(p.sizeMod) && GeometryFits(pub.mBits, p.sizeMod)
    && 0 < pub.mBits && pub.kHashes < M32 && pub.nDomains < M64 && pub.ts < M64
    && |pub.bits| == (pub.mBits + 7) / 8
  }

  function HeaderOf(pub: Publication): Header {
    HeaderFor(pub.mBits, pub.kHashes, pub.nDomains, pub.ts, pub.bits)
  }

  function ImageOf(pub: Publication): seq<byte> {
    Image(pub.mBits, pub.kHashes, pub.nDomains, pub.ts, pub.bits)
  }

  /** Nothing, an early end, or other bytes at one place of the bit array. */
  datatype Damage = Intact | Cut(length: nat) | Burst(at: nat, bytes: seq<byte>)

  /** The bytes there are replaced where that changes bits within 32 consecutive ones only. */
  ghost function Damaged(bits: seq<byte>, at: nat, bytes: seq<byte>): seq<byte> {
    if at + |bytes| <= |bits| && Crc32.IsBurst(bits[at..at + |bytes|], bytes)
    then bits[..at] + bytes + bits[at + |bytes|..]
    else bits
  }

  ghost function Arrived(pub: Publication, damage: Damage): seq<byte> {
    match damage
    case Intact => ImageOf(pub)
    case Cut(length) => if length < |ImageOf(pub)| then ImageOf(pub)[..length] else ImageOf(pub)
    case Burst(at, bytes) => Pack(HeaderOf(pub)) + Damaged(pub.bits, at, bytes)
  }

  /** Of a header over a bit array of the claimed length the updater checks the magic, the
      version and the checksum, and nothing else: the number of probes, m_bits within the same
      number of bytes, the counts and the time stamp are not protected. */
  lemma HeaderChecks(p: Params, h: Header, bits: seq<byte>)
    requires SizeType(p.sizeMod) && GeometryFits(h.mBits, p.sizeMod) && FieldsFit(h) && |bits| == (h.mBits + 7) / 8
    ensures Validation(p, Pack(h) + bits) ==
            if h.magic != MAGIC || h.version != VERSION then InvalidResponse
            else if h.crc32 != Crc32.Checksum(bits) then InvalidCrc
            else Ok
  {
    HeaderReadsBack(h, bits);
    AcceptedByFields(Pack(h) + bits, Filter(h, bits), p.sizeMod);
    BytesWhenFitting(h.mBits, |Pack(h) + bits|, p.sizeMod);
    assert bits[..|bits|] == bits;
  }

  /** A burst of at most 32 bits anywhere in the bit array is always noticed. */
  lemma BurstIsRefused(p: Params, pub: Publication, at: nat, bytes: seq<byte>)
    requires PublicationOk(p, pub) && Damaged(pub.bits, at, bytes) != pub.bits
    ensures Validation(p, Arrived(pub, Burst(at, bytes))) == InvalidCrc
  {
    var before, was, after := pub.bits[..at], pub.bits[at..at + |bytes|], pub.bits[at + |bytes|..];
    assert pub.bits == before + was + after;
    Crc32.BurstIsDetected(before, was, bytes, after);
    HeaderForFits(pub.mBits, pub.kHashes, pub.nDomains, pub.ts, pub.bits);
    HeaderChecks(p, HeaderOf(pub), Damaged(pub.bits, at, bytes));
  }

  lemma CutIsRefused(p: Params, pub: Publication, length: nat)
    requires PublicationOk(p, pub) && length < |ImageOf(pub)|
    ensures Validation(p, ImageOf(pub)[..length]) == InvalidResponse
  {
    PrefixIsRejected(pub.mBits, pub.kHashes, pub.nDomains, pub.ts, pub.bits, length, p.sizeMod);
  }

  /** Under these kinds of damage what passes is what was published. */
  lemma OnlyIntactPasses(p: Params, pub: Publication, damage: Damage)
    requires PublicationOk(p, pub)
    ensures ImageValid(p, Arrived(pub, damage)) <==> Arrived(pub, damage) == ImageOf(pub)
  {
    HeaderForFits(pub.mBits, pub.kHashes, pub.nDomains, pub.ts, pub.bits);
    HeaderChecks(p, HeaderOf(pub), pub.bits);
    match damage
    case Intact =>
    case Cut(length) =>
      if length < |ImageOf(pub)| {
        CutIsRefused(p, pub, length);
      }
    case Burst(at, bytes) =>
      if Damaged(pub.bits, at, bytes) != pub.bits {
        BurstIsRefused(p, pub, at, bytes);
      }
  }

  /** A changed number of probes passes every check. */
  lemma ProbeCountIsUnprotected(p: Params, pub: Publication, kHashes: nat)
    requires PublicationOk(p, pub) && kHashes < M32
    ensures Validation(p, Pack(HeaderOf(pub).(kHashes := kHashes)) + pub.bits) == Ok
    ensures FilterOf(Pack(HeaderOf(pub).(kHashes := kHashes)) + pub.bits) ==
            Filter(HeaderOf(pub).(kHashes := kHashes), pub.bits)
  {
    HeaderForFits(pub.mBits, pub.kHashes, pub.nDomains, pub.ts, pub.bits);
    HeaderChecks(p, HeaderOf(pub).(kHashes := kHashes), pub.bits);
    HeaderReadsBack(HeaderOf(pub).(kHashes := kHashes), pub.bits);
  }

  /** With a changed number of probes a listed name is still found if and only if the probes
      that were added hit; fewer probes never miss one. */
  lemma ProbeCountChanged(f: Filter, domains: seq<seq<byte>>, d: seq<byte>, kHashes: nat)
    requires BuiltFilter(f, domains) && d in domains
    ensures var g, name := Filter(f.header.(kHashes := kHashes), f.bits), Normalize(d);
            Has(g, name) <==> forall i: nat :: f.header.kHashes <= i < kHashes ==> ProbeHits(g, name, i)
  {
    var g, name := Filter(f.header.(kHashes := kHashes), f.bits), Normalize(d);
    NoFalseNegatives(f, domains, d);
    forall i: nat | i < kHashes && i < f.header.kHashes ensures ProbeHits(g, name, i) {
      assert ProbeHits(f, name, i);
    }
  }

  lemma ZeroBitsMiss(f: Filter, name: seq<byte>)
    requires f.header.mBits == 8 && f.header.kHashes == 1 && f.bits == [0]
    ensures !Has(f, name)
  {
    var idx := ProbeIndex(name, 8, 0);
    BitOfZero(idx % 8);
    assert !ProbeHits(f, name, 0);
  }

  lemma ZeroBitsBuilt(domains: seq<seq<byte>>)
    ensures Built([0], domains, 8, 0)
  {
    forall idx: nat ensures BitSet([0], idx) <==> Marked(domains, 8, 0, idx) {
      BitOfZero(idx % 8);
    }
  }

  /** More probes can miss every name: an image without probes, changed to one probe. */
  lemma AddedProbeMissesNames(p: Params, pub: Publication, domains: seq<seq<byte>>, name: seq<byte>)
    requires PublicationOk(p, pub) && pub.mBits == 8 && pub.kHashes == 0 && pub.bits == [0]
    ensures Built(pub.bits, domains, pub.mBits, pub.kHashes)
    ensures var damaged := Pack(HeaderOf(pub).(kHashes := 1)) + pub.bits;
            Validation(p, damaged) == Ok && !Has(FilterOf(damaged), name)
  {
    ZeroBitsBuilt(domains);
    ProbeCountIsUnprotected(p, pub, 1);
    ZeroBitsMiss(Filter(HeaderOf(pub).(kHashes := 1), pub.bits), name);
  }
}
