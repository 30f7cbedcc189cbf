/** CRC-32 as computed by components/bloom_filter/crc32.c, bit by bit over a 32-bit
    register, related to the table-driven algorithm of section 8 of RFC 1952 (the one
    zlib runs on the builder's side) and to the errors it is guaranteed to detect. */
module Crc32 {
  import opened Words

  const POLYNOMIAL: nat := 0xEDB88320
  const BYTE_BITS: nat := 8
  const ONES: nat := 0xFFFF_FFFF

  /** One division step on the reflected register. */
  function Step(crc: nat): nat {
    if crc % 2 == 1 then Xor(crc / 2, POLYNOMIAL) else crc / 2
  }

  function Steps(crc: nat, n: nat): nat
    decreases n
  {
    if n == 0 then crc else Steps(Step(crc), n - 1)
  }

  function ByteStep(crc: nat, b: byte): nat {
    Steps(Xor(crc, b), BYTE_BITS)
  }

  /** The register after a whole message. */
  function Run(crc: nat, data: seq<byte>): nat {
    if data == [] then crc else ByteStep(Run(crc, data[..|data| - 1]), data[|data| - 1])
  }

  function Checksum(data: seq<byte>): nat {
    Xor(Run(ONES, data), ONES)
  }

  // ---------------------------------------------------------------- the C loop

  lemma MaskedStep(crc: nat)
    ensures Step(crc) == Xor(crc / 2, And(POLYNOMIAL, (-(crc % 2)) % M32))
  {
    if crc % 2 == 1 {
      AllOnesMask();
      assert (-(crc % 2)) % M32 == ONES;
    } else {
      assert (-(crc % 2)) % M32 == 0;
      XorZero(crc / 2);
    }
  }

  lemma AllOnesMask()
    ensures And(POLYNOMIAL, ONES) == POLYNOMIAL
  {
    WordSizes();
    MaskIsModulo(POLYNOMIAL, 32);
  }

  lemma {:induction false} StepsLast(crc: nat, n: nat)
    ensures Steps(crc, n + 1) == Step(Steps(crc, n))
    decreases n
  {
    if n > 0 {
      StepsLast(Step(crc), n - 1);
    }
  }

  method Crc32Ieee(data: seq<byte>) returns (result: nat)
    ensures result == Checksum(data)
  {
    var crc := ONES;
    for i := 0 to |data|
      invariant crc == Run(ONES, data[..i])
    {
      assert data[..i + 1][..i] == data[..i];
      crc := Xor(crc, data[i]);
      ghost var entry := crc;
      for bit := 0 to 8
        invariant crc == Steps(entry, bit)
      {
        MaskedStep(crc);
        StepsLast(entry, bit);
        var mask := (-(crc % 2)) % M32;
        crc := Xor(crc / 2, And(POLYNOMIAL, mask));
      }
    }
    assert data[..|data|] == data;
    return Xor(crc, ONES);
  }

  // ------------------------------------------- the step is linear and invertible

  lemma XorSharedTerm(x: nat, y: nat, p: nat)
    ensures Xor(Xor(x, p), Xor(y, p)) == Xor(x, y)
    ensures Xor(Xor(x, p), y) == Xor(Xor(x, y), p)
    ensures Xor(x, Xor(y, p)) == Xor(Xor(x, y), p)
  {
    XorAssociates(x, y, p);
    XorAssociates(x, p, y);
    XorCommutes(y, p);
    XorAssociates(Xor(x, p), p, y);
    XorCancels(x, p);
  }

  lemma StepIsLinear(a: nat, b: nat)
    ensures Step(Xor(a, b)) == Xor(Step(a), Step(b))
  {
    XorHalves(a, b);
    XorSharedTerm(a / 2, b / 2, POLYNOMIAL);
  }

  lemma StepBound(crc: nat)
    requires crc < M32
    ensures Step(crc) < M32
  {
    WordSizes();
    XorBound(crc / 2, POLYNOMIAL, 32);
  }

  /** Bit 31 of the polynomial is set, so the bit shifted out is never lost. */
  lemma StepIsInjective(a: nat, b: nat)
    requires a < M32 && b < M32
    requires Step(a) == Step(b)
    ensures a == b
  {
    WordSizes();
    XorKeepsTopBit(a / 2, POLYNOMIAL, 31);
    XorKeepsTopBit(b / 2, POLYNOMIAL, 31);
    XorCancels(a / 2, POLYNOMIAL);
    XorCancels(b / 2, POLYNOMIAL);
    SameDigits(a, b);
  }

  lemma {:induction false} StepsBound(crc: nat, n: nat)
    requires crc < M32
    ensures Steps(crc, n) < M32
    decreases n
  {
    if n > 0 {
      StepBound(crc);
      StepsBound(Step(crc), n - 1);
    }
  }

  lemma {:induction false} StepsAreLinear(a: nat, b: nat, n: nat)
    ensures Steps(Xor(a, b), n) == Xor(Steps(a, n), Steps(b, n))
    decreases n
  {
    if n > 0 {
      StepIsLinear(a, b);
      StepsAreLinear(Step(a), Step(b), n - 1);
    }
  }

  lemma {:induction false} StepsAreInjective(a: nat, b: nat, n: nat)
    requires a < M32 && b < M32
    requires Steps(a, n) == Steps(b, n)
    ensures a == b
    decreases n
  {
    if n > 0 {
      StepBound(a);
      StepBound(b);
      StepsAreInjective(Step(a), Step(b), n - 1);
      StepIsInjective(a, b);
    }
  }

  lemma {:induction false} StepsSplit(crc: nat, m: nat, n: nat)
    ensures Steps(Steps(crc, m), n) == Steps(crc, m + n)
    decreases m
  {
    if m > 0 {
      StepsSplit(Step(crc), m - 1, n);
    }
  }

  /** Digits above the first n only slide down during n steps. */
  lemma {:induction false} HighDigitsSlideDown(y: nat, n: nat)
    ensures Steps(Pow2(n) * y, n) == y
  {
    if n > 0 {
      var z := Pow2(n - 1) * y;
      assert Pow2(n) * y == 2 * z;
      HighDigitsSlideDown(y, n - 1);
    }
  }

  /** So a byte may be xored in eight steps early, eight digits higher. */
  lemma InjectEarly(x: nat, y: nat)
    ensures Steps(Xor(x, 256 * y), BYTE_BITS) == Xor(Steps(x, BYTE_BITS), y)
  {
    StepsAreLinear(x, 256 * y, BYTE_BITS);
    HighDigitsSlideDown(y, BYTE_BITS);
    WordSizes();
  }

  lemma {:induction false} RunBound(crc: nat, data: seq<byte>)
    requires crc < M32
    ensures Run(crc, data) < M32
  {
    WordSizes();
    if data != [] {
      RunBound(crc, data[..|data| - 1]);
      XorBound(Run(crc, data[..|data| - 1]), data[|data| - 1], 32);
      StepsBound(Xor(Run(crc, data[..|data| - 1]), data[|data| - 1]), BYTE_BITS);
    }
  }

  lemma ChecksumBound(data: seq<byte>)
    ensures Checksum(data) < M32
  {
    WordSizes();
    RunBound(ONES, data);
    XorBound(Run(ONES, data), ONES, 32);
  }

  // ----------------------------------------------------- RFC 1952, section 8

  /** One entry of the 256-entry table of RFC 1952 section 8: eight times shift right, and
      xor 0xedb88320 if a one was shifted out. */
  function TableEntry(n: nat): nat {
    Shifts(n, 8)
  }

  function Shifts(c: nat, k: nat): nat
    decreases k
  {
    if k == 0 then c else Shifts(if c % 2 == 1 then Xor(0xEDB8_8320, c / 2) else c / 2, k - 1)
  }

  lemma {:induction false} ShiftsAreSteps(c: nat, k: nat)
    ensures Shifts(c, k) == Steps(c, k)
    decreases k
  {
    if k > 0 {
      XorCommutes(0xEDB8_8320, c / 2);
      ShiftsAreSteps(Step(c), k - 1);
    }
  }

  /** The table-driven update of RFC 1952 section 8. */
  function UpdateCrc(crc: nat, data: seq<byte>): nat {
    if data == [] then crc
    else
      var c := UpdateCrc(crc, data[..|data| - 1]);
      Xor(TableEntry(Xor(c, data[|data| - 1]) % 256), c / 256)
  }

  lemma XorWithByte(c: nat, low: byte, high: nat, b: byte)
    requires c == low + 256 * high
    ensures Xor(c, b) == Xor(low, b) + 256 * high == Xor(Xor(low, b), 256 * high)
    ensures Xor(low, b) < 256
  {
    XorDisjointByte(low, high);
    XorBytes(low, b);
    XorDisjointByte(Xor(low, b), high);
    XorSharedTerm(low, b, 256 * high);
  }

  lemma ByteStepSplit(c: nat, low: byte, high: nat, b: byte)
    requires c == low + 256 * high
    ensures ByteStep(c, b) == Xor(TableEntry(Xor(low, b)), high)
  {
    XorWithByte(c, low, high, b);
    InjectEarly(Xor(low, b), high);
    ShiftsAreSteps(Xor(low, b), BYTE_BITS);
  }

  lemma LowByte(y: nat, x: byte, high: nat)
    requires y == x + 256 * high
    ensures y % 256 == x
  {
  }

  lemma ByteStepIsTableStep(c: nat, b: byte)
    ensures ByteStep(c, b) == Xor(TableEntry(Xor(c, b) % 256), c / 256)
  {
    XorWithByte(c, c % 256, c / 256, b);
    ByteStepSplit(c, c % 256, c / 256, b);
    LowByte(Xor(c, b), Xor(c % 256, b), c / 256);
  }

  lemma {:induction false} RunIsUpdateCrc(crc: nat, data: seq<byte>)
    ensures Run(crc, data) == UpdateCrc(crc, data)
  {
    if data != [] {
      RunIsUpdateCrc(crc, data[..|data| - 1]);
      ByteStepIsTableStep(Run(crc, data[..|data| - 1]), data[|data| - 1]);
    }
  }

  /** The bitwise C loop and the table-driven algorithm are the same function. */
  lemma ChecksumIsRfc1952(data: seq<byte>)
    ensures Checksum(data) == Xor(UpdateCrc(ONES, data), ONES)
  {
    RunIsUpdateCrc(ONES, data);
  }

  // ------------------------------------------------------------ burst detection

  lemma {:induction false} RunConcat(crc: nat, a: seq<byte>, b: seq<byte>)
    ensures Run(crc, a + b) == Run(Run(crc, a), b)
    decreases |b|
  {
    if b == [] {
      assert a + b == a;
    } else {
      var b' := b[..|b| - 1];
      assert (a + b)[..|a + b| - 1] == a + b';
      RunConcat(crc, a, b');
    }
  }

  lemma {:induction false} RunIsInjective(s: nat, t: nat, data: seq<byte>)
    requires s < M32 && t < M32
    requires Run(s, data) == Run(t, data)
    ensures s == t
  {
    if data != [] {
      var init, b := data[..|data| - 1], data[|data| - 1];
      var u, v := Run(s, init), Run(t, init);
      WordSizes();
      RunBound(s, init);
      RunBound(t, init);
      XorBound(u, b, 32);
      XorBound(v, b, 32);
      StepsAreInjective(Xor(u, b), Xor(v, b), BYTE_BITS);
      XorCancels(u, b);
      XorCancels(v, b);
      RunIsInjective(s, t, init);
    }
  }

  lemma LeNatBound(w: seq<byte>)
    ensures LeNat(w) < Pow2(8 * |w|)
  {
    if w != [] {
      LeNatBound(w[1..]);
      PowSum(8, 8 * |w[1..]|);
      WordSizes();
    }
  }

  lemma {:induction false} LeNatIsInjective(v: seq<byte>, w: seq<byte>)
    requires |v| == |w|
    requires LeNat(v) == LeNat(w)
    ensures v == w
  {
    if v != [] {
      LeNatIsInjective(v[1..], w[1..]);
      assert v == [v[0]] + v[1..] && w == [w[0]] + w[1..];
    }
  }

  lemma RunOfOne(s: nat, b: byte)
    ensures Run(s, [b]) == ByteStep(s, b)
  {
    assert [b][..0] == [];
  }

  lemma StepsOfPrepended(s: nat, b: byte, y: nat, word: nat, n: nat, total: nat)
    requires word == Xor(b, 256 * y) && total == BYTE_BITS + n
    ensures Steps(Xor(ByteStep(s, b), y), n) == Steps(Xor(s, word), total)
  {
    InjectEarly(Xor(s, b), y);
    XorAssociates(s, b, 256 * y);
    StepsSplit(Xor(s, word), BYTE_BITS, n);
  }

  lemma PrependByte(s: nat, b: byte, rest: seq<byte>, w: seq<byte>)
    requires w == [b] + rest
    ensures Steps(Xor(ByteStep(s, b), LeNat(rest)), 8 * |rest|) == Steps(Xor(s, LeNat(w)), 8 * |w|)
  {
    LeNatPrepend(b, rest, w);
    StepsOfPrepended(s, b, LeNat(rest), LeNat(w), 8 * |rest|, 8 * |w|);
  }

  lemma LeNatPrepend(b: byte, rest: seq<byte>, w: seq<byte>)
    requires w == [b] + rest
    ensures LeNat(w) == Xor(b, 256 * LeNat(rest)) && 8 * |w| == BYTE_BITS + 8 * |rest|
  {
    assert w[1..] == rest;
    XorDisjointByte(b, LeNat(rest));
  }

  /** A run of bytes acts as one little-endian word xored into the register. */
  lemma {:induction false} WindowIsOneWord(s: nat, w: seq<byte>)
    ensures Run(s, w) == Steps(Xor(s, LeNat(w)), 8 * |w|)
    decreases |w|
  {
    if w == [] {
      XorZero(s);
    } else {
      var b, rest := w[0], w[1..];
      assert [b] + rest == w;
      RunConcat(s, [b], rest);
      RunOfOne(s, b);
      WindowIsOneWord(ByteStep(s, b), rest);
      PrependByte(s, b, rest, w);
    }
  }

  function Shifted(y: nat, j: nat): nat {
    Pow2(j) * y
  }

  /** Two equally long messages that differ only within 32 consecutive bits, counted from the
      low end of each byte as the reflected register takes them, on byte borders or not. */
  ghost predicate IsBurst(v: seq<byte>, w: seq<byte>) {
    && |v| == |w|
    && exists y: nat, j: nat :: 0 < y < M32 && j <= 8 * |v| && Xor(LeNat(v), LeNat(w)) == Shifted(y, j)
  }

  /** Every burst of at most 32 bits changes the checksum, in messages of any length. */
  lemma BurstIsDetected(before: seq<byte>, v: seq<byte>, w: seq<byte>, after: seq<byte>)
    requires IsBurst(v, w)
    ensures Checksum(before + v + after) != Checksum(before + w + after)
  {
    var s := Run(ONES, before);
    RunBound(ONES, before);
    WindowsDiffer(s, v, w);
    var sv, sw := Run(s, v), Run(s, w);
    RunBound(s, v);
    RunBound(s, w);
    RunConcat(ONES, before, v);
    RunConcat(ONES, before, w);
    RunConcat(ONES, before + v, after);
    RunConcat(ONES, before + w, after);
    if Run(sv, after) == Run(sw, after) {
      RunIsInjective(sv, sw, after);
    }
    XorCancels(Run(sv, after), ONES);
    XorCancels(Run(sw, after), ONES);
  }

  lemma WindowsDiffer(s: nat, v: seq<byte>, w: seq<byte>)
    requires IsBurst(v, w)
    ensures Run(s, v) != Run(s, w)
  {
    var y: nat, j: nat :| 0 < y < M32 && j <= 8 * |v| && Xor(LeNat(v), LeNat(w)) == Shifted(y, j);
    WindowIsOneWord(s, v);
    WindowIsOneWord(s, w);
    if Run(s, v) == Run(s, w) {
      DifferenceVanishes(s, LeNat(v), LeNat(w), 8 * |v|);
      ShiftedNeverVanishes(y, j, 8 * |v|);
    }
  }

  /** Two words with one effect: their difference has none. */
  lemma DifferenceVanishes(s: nat, v: nat, w: nat, n: nat)
    requires Steps(Xor(s, v), n) == Steps(Xor(s, w), n)
    ensures Steps(Xor(v, w), n) == 0
  {
    XorCommutes(s, v);
    XorCommutes(s, w);
    XorSharedTerm(v, w, s);
    StepsAreLinear(Xor(s, v), Xor(s, w), n);
    XorSelf(Steps(Xor(s, v), n));
  }

  lemma ShiftedNeverVanishes(y: nat, j: nat, n: nat)
    requires 0 < y < M32 && j <= n
    ensures Steps(Shifted(y, j), n) != 0
  {
    StepsSplit(Shifted(y, j), j, n - j);
    HighDigitsSlideDown(y, j);
    HighDigitsSlideDown(0, n - j);
    if Steps(y, n - j) == 0 {
      StepsAreInjective(y, 0, n - j);
    }
  }

  /** A change confined to four consecutive bytes is such a burst. */
  lemma ShortChangeIsBurst(v: seq<byte>, w: seq<byte>)
    requires |v| == |w| <= 4 && v != w
    ensures IsBurst(v, w)
  {
    var y := Xor(LeNat(v), LeNat(w));
    WindowFits(v);
    WindowFits(w);
    WordSizes();
    XorBound(LeNat(v), LeNat(w), 32);
    if y == 0 {
      XorCancels(LeNat(v), LeNat(w));
      XorZero(LeNat(w));
      LeNatIsInjective(v, w);
    }
    assert Xor(LeNat(v), LeNat(w)) == Shifted(y, 0);
  }

  lemma WindowFits(w: seq<byte>)
    requires |w| <= 4
    ensures LeNat(w) < M32
  {
    LeNatBound(w);
    WordSizes();
    PowSum(8 * |w|, 32 - 8 * |w|);
    MulAtLeast(Pow2(32 - 8 * |w|), Pow2(8 * |w|));
  }
}
