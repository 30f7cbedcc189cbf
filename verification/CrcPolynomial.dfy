/** What crc32_ieee computes, in the algebra of section 8 of RFC 1952: the remainder of the
    message by the generator polynomial over the two-element field, with initial and final
    complement. A polynomial is the number whose binary digits are its coefficients. */
module CrcPolynomial {
  import opened Words
  import Crc32

  /** x^32 + x^26 + x^23 + x^22 + x^16 + x^12 + x^11 + x^10 + x^8 + x^7 + x^5 + x^4 + x^2 + x + 1 */
  function Generator(): nat {
    Pow2(32) + Pow2(26) + Pow2(23) + Pow2(22) + Pow2(16) + Pow2(12) + Pow2(11) + Pow2(10) +
    Pow2(8) + Pow2(7) + Pow2(5) + Pow2(4) + Pow2(2) + Pow2(1) + Pow2(0)
  }

  lemma GeneratorValue()
    ensures Generator() == 0x1_04C1_1DB7 && Pow2(32) == 0x1_0000_0000
  {
    assert Pow2(8) == 256;
    assert Pow2(16) == 0x1_0000;
    assert Pow2(26) == 0x400_0000;
  }

  /** The product of polynomials: addition without carries. */
  function Product(a: nat, b: nat): nat {
    if a == 0 then 0 else Xor(if a % 2 == 1 then b else 0, 2 * Product(a / 2, b))
  }

  /** The low n digits of x in opposite order. */
  function Reversed(x: nat, n: nat): nat {
    if n == 0 then 0 else Reversed(x / 2, n - 1) + Doubled(x % 2, n - 1)
  }

  /** The message as a polynomial: its bits from the highest power down, low bits of a byte first. */
  function MessagePolynomial(data: seq<byte>): nat {
    if data == [] then 0
    else Doubled(MessagePolynomial(data[..|data| - 1]), 8) + Reversed(data[|data| - 1], 8)
  }

  /** r is a remainder of v by the generator. */
  ghost predicate IsRemainder(v: nat, r: nat) {
    r < Pow2(32) && exists q: nat :: v == Xor(Product(q, Generator()), r)
  }

  // ------------------------------------------------------- one remainder only

  lemma XorDoubles(a: nat, b: nat)
    ensures Xor(2 * a, 2 * b) == 2 * Xor(a, b)
  {
    XorHalves(2 * a, 2 * b);
  }

  lemma XorOfFour(a: nat, b: nat, c: nat, d: nat)
    ensures Xor(Xor(a, b), Xor(c, d)) == Xor(Xor(a, c), Xor(b, d))
  {
    XorAssociates(a, b, Xor(c, d));
    XorAssociates(b, c, d);
    XorCommutes(b, c);
    XorAssociates(c, b, d);
    XorAssociates(a, c, Xor(b, d));
  }

  lemma {:induction false} ProductIsLinear(a: nat, b: nat, g: nat)
    ensures Product(Xor(a, b), g) == Xor(Product(a, g), Product(b, g))
    decreases a + b
  {
    if a == 0 || b == 0 {
      XorZero(a);
      XorZero(b);
      XorZero(Product(a, g));
      XorZero(Product(b, g));
    } else {
      ProductIsLinear(a / 2, b / 2, g);
      XorHalves(a, b);
      ProductUnfolds(Xor(a, b), g);
      ProductUnfolds(a, g);
      ProductUnfolds(b, g);
      LinearStep(a % 2, b % 2, g, Product(a / 2, g), Product(b / 2, g));
    }
  }

  function Term(t: nat, g: nat): nat {
    if t == 1 then g else 0
  }

  lemma ProductUnfolds(a: nat, g: nat)
    ensures Product(a, g) == Xor(Term(a % 2, g), 2 * Product(a / 2, g))
  {
    if a == 0 {
      XorZero(0);
    }
  }

  lemma LinearStep(s: nat, t: nat, g: nat, x: nat, y: nat)
    requires s < 2 && t < 2
    ensures Xor(Term(if s == t then 0 else 1, g), 2 * Xor(x, y)) == Xor(Xor(Term(s, g), 2 * x), Xor(Term(t, g), 2 * y))
  {
    XorDoubles(x, y);
    XorOfFour(Term(s, g), 2 * x, Term(t, g), 2 * y);
    XorSelf(g);
    XorSelf(0);
    XorZero(g);
  }

  lemma {:induction false} XorKeepsHigh(a: nat, b: nat, k: nat)
    requires b < Pow2(k) <= a
    ensures Xor(a, b) >= Pow2(k)
  {
    if k == 0 {
      XorZero(a);
    } else {
      XorKeepsHigh(a / 2, b / 2, k - 1);
      XorHalves(a, b);
    }
  }

  lemma {:induction false} ProductIsLong(q: nat)
    requires q > 0
    ensures Product(q, Generator()) >= Pow2(32)
  {
    GeneratorValue();
    ProductUnfolds(q, Generator());
    if q == 1 {
      XorZero(Generator());
    } else {
      ProductIsLong(q / 2);
      assert Pow2(33) == 2 * Pow2(32);
      XorCommutes(Term(q % 2, Generator()), 2 * Product(q / 2, Generator()));
      XorKeepsHigh(2 * Product(q / 2, Generator()), Term(q % 2, Generator()), 33);
    }
  }

  /** There is one remainder only. */
  lemma RemainderIsUnique(v: nat, r: nat, t: nat)
    requires IsRemainder(v, r) && IsRemainder(v, t)
    ensures r == t
  {
    var g := Generator();
    var p: nat :| v == Xor(Product(p, g), r);
    var q: nat :| v == Xor(Product(q, g), t);
    XorOfFour(Product(p, g), r, Product(q, g), t);
    XorSelf(v);
    ProductIsLinear(p, q, g);
    XorZeroMeansEqual(Product(Xor(p, q), g), Xor(r, t));
    XorBound(r, t, 32);
    if Xor(p, q) > 0 {
      ProductIsLong(Xor(p, q));
    }
    XorZeroMeansEqual(r, t);
  }

  lemma XorZeroMeansEqual(a: nat, b: nat)
    requires Xor(a, b) == 0
    ensures a == b
  {
    XorCancels(a, b);
    XorZero(b);
  }

  // ---------------------------------------------------------------- shifting

  lemma {:induction false} DoubledXor(a: nat, b: nat, k: nat)
    ensures Doubled(Xor(a, b), k) == Xor(Doubled(a, k), Doubled(b, k))
  {
    if k > 0 {
      DoubledXor(a, b, k - 1);
      XorDoubles(Doubled(a, k - 1), Doubled(b, k - 1));
    }
  }

  lemma {:induction false} DoubledTwice(x: nat, a: nat, b: nat)
    ensures Doubled(Doubled(x, a), b) == Doubled(x, a + b)
  {
    if b > 0 {
      DoubledTwice(x, a, b - 1);
    }
  }

  lemma {:induction false} DoubledZero(k: nat)
    ensures Doubled(0, k) == 0
  {
    if k > 0 {
      DoubledZero(k - 1);
    }
  }

  lemma XorAbove(low: nat, high: nat, k: nat)
    requires low < Pow2(k)
    ensures Xor(low, Doubled(high, k)) == low + Doubled(high, k)
  {
    DoubledIsProduct(high, k);
    XorDisjoint(low, high, k);
  }

  lemma DoubledOne(k: nat)
    ensures Doubled(1, k) == Pow2(k)
  {
    DoubledIsProduct(1, k);
  }

  // ---------------------------------------------------------- reversed words

  lemma {:induction false} ReversedBound(x: nat, n: nat)
    ensures Reversed(x, n) < Pow2(n)
  {
    if n > 0 {
      ReversedBound(x / 2, n - 1);
      DigitBound(x % 2, n - 1);
    }
  }

  lemma DigitBound(t: nat, n: nat)
    requires t < 2
    ensures Doubled(t, n) <= Pow2(n)
  {
    DoubledOne(n);
    DoubledZero(n);
  }

  lemma ReversedUnfolds(x: nat, n: nat)
    requires n > 0
    ensures Reversed(x, n) == Xor(Reversed(x / 2, n - 1), Doubled(x % 2, n - 1))
  {
    ReversedBound(x / 2, n - 1);
    XorAbove(Reversed(x / 2, n - 1), x % 2, n - 1);
  }

  lemma {:induction false} ReversedIsLinear(x: nat, y: nat, n: nat)
    ensures Reversed(Xor(x, y), n) == Xor(Reversed(x, n), Reversed(y, n))
    decreases n
  {
    if n > 0 {
      ReversedIsLinear(x / 2, y / 2, n - 1);
      XorHalves(x, y);
      ReversedUnfolds(Xor(x, y), n);
      ReversedUnfolds(x, n);
      ReversedUnfolds(y, n);
      JoinIsLinear(Reversed(x / 2, n - 1), Reversed(y / 2, n - 1), x % 2, y % 2, n - 1);
    } else {
      XorZero(0);
    }
  }

  lemma JoinIsLinear(x: nat, y: nat, s: nat, t: nat, k: nat)
    requires s < 2 && t < 2
    ensures Xor(Xor(x, y), Doubled(if s == t then 0 else 1, k)) == Xor(Xor(x, Doubled(s, k)), Xor(y, Doubled(t, k)))
  {
    XorOfFour(x, Doubled(s, k), y, Doubled(t, k));
    XorOfDigits(s, t, k);
  }

  lemma XorOfDigits(s: nat, t: nat, k: nat)
    requires s < 2 && t < 2
    ensures Xor(Doubled(s, k), Doubled(t, k)) == Doubled(if s == t then 0 else 1, k)
  {
    DoubledZero(k);
    XorSelf(Doubled(s, k));
    XorZero(Doubled(1, k));
  }

  /** A word with a free top digit. */
  lemma {:induction false} ReversedDoubles(x: nat, n: nat)
    requires x < Pow2(n)
    ensures Reversed(x, n + 1) == 2 * Reversed(x, n)
  {
    if n > 0 {
      ReversedDoubles(x / 2, n - 1);
    }
  }

  /** The same by weights. */
  function Mirrored(x: nat, n: nat): nat {
    if n == 0 then 0 else Mirrored(x / 2, n - 1) + Pow2(n - 1) * (x % 2)
  }

  lemma {:induction false} ReversedIsMirrored(x: nat, n: nat)
    ensures Reversed(x, n) == Mirrored(x, n)
  {
    if n > 0 {
      ReversedIsMirrored(x / 2, n - 1);
      DoubledIsProduct(x % 2, n - 1);
    }
  }

  lemma MirroredPolynomial()
    ensures Mirrored(0xEDB8_8320, 32) == 0x04C1_1DB7
  {
    assert Pow2(8) == 256 && Pow2(16) == 0x1_0000 && Pow2(24) == 0x100_0000;
    assert Mirrored(0xED, 8) == 0xB7;
    assert Mirrored(0xEDB8, 16) == 0x1DB7;
    assert Mirrored(0xED_B883, 24) == 0xC1_1DB7;
  }

  /** The register's polynomial in opposite order is the generator without its top term. */
  lemma ReversedPolynomial(p: nat, w: nat)
    requires p == 0xEDB8_8320 && w == 32
    ensures Pow2(w) + Reversed(p, w) == Generator()
  {
    GeneratorValue();
    MirroredPolynomial();
    ReversedIsMirrored(p, w);
  }

  // --------------------------------------------------------------- the register

  lemma HalfReversed(c: nat, n: nat, w: nat)
    requires w == n + 1 && c < Pow2(w)
    ensures 2 * Reversed(c, w) == Reversed(c / 2, w) + Doubled(c % 2, w)
  {
    ReversedDoubles(c / 2, n);
  }

  /** Reduction: the term shifted out cancels the top term of the generator. */
  lemma TopCancels(a: nat, low: nat, k: nat, top: nat)
    requires a < Pow2(k) && low < Pow2(k) && top == Pow2(k)
    ensures Xor(a + top, top + low) == Xor(a, low)
  {
    DoubledOne(k);
    XorAbove(a, 1, k);
    XorAbove(low, 1, k);
    Crc32.XorSharedTerm(a, low, top);
  }

  /** One step of the reflected register is one step of polynomial division. */
  lemma StepReversed(c: nat, w: nat)
    requires c < M32 && w == 32
    ensures Reversed(Crc32.Step(c), w) == Xor(2 * Reversed(c, w), Term(c % 2, Generator()))
  {
    StepReversedBy(c, w, Crc32.POLYNOMIAL, Crc32.Step(c), Generator());
  }

  lemma StepReversedBy(c: nat, w: nat, p: nat, next: nat, g: nat)
    requires c < M32 && w == 32 && p == Crc32.POLYNOMIAL && next == Crc32.Step(c) && g == Generator()
    ensures Reversed(next, w) == Xor(2 * Reversed(c, w), Term(c % 2, g))
  {
    WordSizes();
    HalfReversed(c, w - 1, w);
    ReversedPolynomial(p, w);
    StepOf(c, p);
    OneStep(c, p, w, 2 * Reversed(c, w), g, next);
  }

  lemma StepOf(c: nat, p: nat)
    requires p == Crc32.POLYNOMIAL
    ensures Crc32.Step(c) == if c % 2 == 1 then Xor(c / 2, p) else c / 2
  {
  }

  lemma OneStep(c: nat, p: nat, k: nat, r2: nat, g: nat, next: nat)
    requires next == if c % 2 == 1 then Xor(c / 2, p) else c / 2
    requires r2 == Reversed(c / 2, k) + Doubled(c % 2, k) && g == Pow2(k) + Reversed(p, k)
    ensures Reversed(next, k) == Xor(r2, Term(c % 2, g))
  {
    ReversedBound(c / 2, k);
    ReversedBound(p, k);
    DoubledOne(k);
    DoubledZero(k);
    if c % 2 == 1 {
      ReversedIsLinear(c / 2, p, k);
      TopCancels(Reversed(c / 2, k), Reversed(p, k), k, Pow2(k));
    } else {
      XorZero(r2);
    }
  }

  lemma StepPassesOn(x: nat, y: nat, w: nat)
    requires w == 2 * y
    ensures Crc32.Step(Xor(x, w)) == Xor(Crc32.Step(x), y)
  {
    Crc32.StepIsLinear(x, w);
  }

  /** The dividend after one more bit; the 32 appended zero bits stay appended. */
  function Fed(v2: nat, bits: nat, w: nat): nat {
    Xor(v2, Doubled(bits, w))
  }

  /** One bit of the message: the dividend grows by a digit, and the register keeps up. */
  lemma BitKeepsRemainder(v: nat, reg: nat, bit: nat, w: nat)
    requires reg < M32 && bit < 2 && IsRemainder(v, Reversed(reg, w)) && w == 32
    ensures Crc32.Step(Xor(reg, bit)) < M32
    ensures IsRemainder(Fed(2 * v, bit, w), Reversed(Crc32.Step(Xor(reg, bit)), w))
  {
    WordSizes();
    XorBound(reg, bit, w);
    var c := Xor(reg, bit);
    Crc32.StepBound(c);
    StepReversed(c, w);
    ReversedBound(Crc32.Step(c), w);
    BitReversed(reg, bit, w - 1, w);
    var q: nat :| v == Xor(Product(q, Generator()), Reversed(reg, w));
    NextQuotient(q, c % 2, v, Reversed(reg, w), Reversed(Crc32.Step(c), w), Doubled(bit, w), Generator());
  }

  lemma BitReversed(reg: nat, bit: nat, n: nat, w: nat)
    requires bit < 2 && w == n + 1
    ensures 2 * Reversed(Xor(reg, bit), w) == Xor(2 * Reversed(reg, w), Doubled(bit, w))
  {
    ReversedIsLinear(reg, bit, w);
    ReversedZero(n);
    XorDoubles(Reversed(reg, w), Doubled(bit, n));
  }

  lemma {:induction false} ReversedZero(n: nat)
    ensures Reversed(0, n) == 0
  {
    if n > 0 {
      ReversedZero(n - 1);
      DoubledZero(n - 1);
    }
  }

  lemma SharedTermFirst(a: nat, s: nat, t: nat)
    ensures Xor(Xor(t, a), Xor(s, t)) == Xor(a, s)
  {
    XorCommutes(t, a);
    Crc32.XorSharedTerm(a, s, t);
  }

  lemma NextQuotient(q: nat, t: nat, v: nat, r: nat, next: nat, fed: nat, g: nat)
    requires t < 2 && v == Xor(Product(q, g), r)
    requires next == Xor(Xor(2 * r, fed), Term(t, g))
    ensures Xor(2 * v, fed) == Xor(Product(2 * q + t, g), next)
  {
    ProductUnfolds(2 * q + t, g);
    Quotients(Product(q, g), Product(2 * q + t, g), Term(t, g), v, r, fed, next, 2 * v, 2 * Product(q, g), 2 * r);
  }

  lemma Quotients(a: nat, b: nat, term: nat, v: nat, r: nat, fed: nat, next: nat, v2: nat, a2: nat, r2: nat)
    requires v == Xor(a, r) && v2 == 2 * v && a2 == 2 * a && r2 == 2 * r
    requires b == Xor(term, a2) && next == Xor(Xor(r2, fed), term)
    ensures Xor(v2, fed) == Xor(b, next)
  {
    XorDoubles(a, r);
    XorAssociates(a2, r2, fed);
    SharedTermFirst(a2, Xor(r2, fed), term);
  }

  /** The n low bits of a byte, low ones first. */
  lemma {:induction false} BitsKeepRemainder(v: nat, reg: nat, b: nat, n: nat, w: nat, fed: nat, r: nat)
    requires reg < M32 && b < Pow2(n) && IsRemainder(v, Reversed(reg, w)) && w == 32
    requires fed == Fed(Doubled(v, n), Reversed(b, n), w)
    requires r == Reversed(Crc32.Steps(Xor(reg, b), n), w)
    ensures IsRemainder(fed, r)
    decreases n
  {
    if n == 0 {
      NoBits(v, reg, w, n);
    } else {
      var bit, rest, v2 := b % 2, b / 2, 2 * v;
      BitKeepsRemainder(v, reg, bit, w);
      FirstBit(reg, b, n, 2 * rest);
      FedTogether(v, b, n, w, v2);
      BitsKeepRemainder(Fed(v2, bit, w), Crc32.Step(Xor(reg, bit)), rest, n - 1, w, fed, r);
    }
  }

  lemma NoBits(v: nat, reg: nat, w: nat, n: nat)
    requires n == 0
    ensures Fed(Doubled(v, n), Reversed(0, n), w) == v && Xor(reg, 0) == reg
    ensures Crc32.Steps(reg, n) == reg
  {
    DoubledZero(w);
    XorZero(reg);
    XorZero(v);
  }

  /** Eight steps on a register with a byte in it: the first bit goes first. */
  lemma FirstBit(reg: nat, b: nat, n: nat, high: nat)
    requires n > 0 && high == 2 * (b / 2)
    ensures Crc32.Steps(Xor(reg, b), n) == Crc32.Steps(Xor(Crc32.Step(Xor(reg, b % 2)), b / 2), n - 1)
  {
    XorDisjointBit(b % 2, high);
    XorAssociates(reg, b % 2, high);
    StepPassesOn(Xor(reg, b % 2), b / 2, high);
  }

  lemma XorDisjointBit(bit: nat, high: nat)
    requires bit < 2 && high % 2 == 0
    ensures Xor(bit, high) == bit + high
  {
    XorHalves(bit, high);
    XorZero(high / 2);
  }

  lemma {:induction false} DoubledFirst(v: nat, n: nat, v2: nat)
    requires n > 0 && v2 == 2 * v
    ensures Doubled(v2, n - 1) == Doubled(v, n)
  {
    if n > 1 {
      DoubledFirst(v, n - 1, v2);
    }
  }

  /** Feeding a bit and then the rest is feeding all. */
  lemma FedTogether(v: nat, b: nat, n: nat, w: nat, v2: nat)
    requires n > 0 && v2 == 2 * v
    ensures Fed(Doubled(Fed(v2, b % 2, w), n - 1), Reversed(b / 2, n - 1), w) == Fed(Doubled(v, n), Reversed(b, n), w)
  {
    var bit, r := Doubled(b % 2, n - 1), Reversed(b / 2, n - 1);
    DoubledXor(v2, Doubled(b % 2, w), n - 1);
    DoubledFirst(v, n, v2);
    DoubledTwice(b % 2, w, n - 1);
    DoubledTwice(b % 2, n - 1, w);
    ReversedUnfolds(b, n);
    XorCommutes(r, bit);
    DoubledXor(bit, r, w);
    XorAssociates(Doubled(v, n), Doubled(bit, w), Doubled(r, w));
  }

  // ------------------------------------------------------------ whole messages

  /** The message with 32 zero bits appended, its first 32 bits complemented. */
  function Dividend(data: seq<byte>, w: nat): nat {
    Fed(Doubled(0xFFFF_FFFF, 8 * |data|), MessagePolynomial(data), w)
  }

  lemma NextDividend(data: seq<byte>, init: seq<byte>, b: byte, w: nat, n: nat)
    requires data == init + [b] && n == 8
    ensures Dividend(data, w) == Fed(Doubled(Dividend(init, w), n), Reversed(b, n), w)
  {
    assert data[..|data| - 1] == init;
    NextTerms(Doubled(0xFFFF_FFFF, 8 * |init|), MessagePolynomial(init), b, w, n);
    DoubledTwice(0xFFFF_FFFF, 8 * |init|, n);
  }

  lemma NextTerms(head: nat, m: nat, b: nat, w: nat, n: nat)
    ensures Fed(Doubled(head, n), Doubled(m, n) + Reversed(b, n), w) ==
            Fed(Doubled(Fed(head, m, w), n), Reversed(b, n), w)
  {
    var r := Reversed(b, n);
    ReversedBound(b, n);
    XorAbove(r, m, n);
    XorCommutes(r, Doubled(m, n));
    DoubledXor(Doubled(m, n), r, w);
    DoubledXor(head, Doubled(m, w), n);
    DoubledTwice(m, w, n);
    DoubledTwice(m, n, w);
    XorAssociates(Doubled(head, n), Doubled(Doubled(m, n), w), Doubled(r, w));
  }

  lemma {:induction false} ReversedOnes(n: nat)
    ensures Reversed(Pow2(n) - 1, n) == Pow2(n) - 1
  {
    if n > 0 {
      ReversedOnes(n - 1);
      DoubledOne(n - 1);
      assert (Pow2(n) - 1) / 2 == Pow2(n - 1) - 1;
    }
  }

  lemma EmptyRemainder(w: nat, ones: nat, n: nat)
    requires n == 32 && ones == Pow2(n) - 1
    ensures IsRemainder(Fed(ones, 0, w), Reversed(ones, n))
  {
    ReversedOnes(n);
    DoubledZero(w);
    XorZero(ones);
    assert ones == Xor(Product(0, Generator()), ones);
  }

  /** After every message the register, in opposite order, is the remainder. */
  lemma {:induction false} RunIsRemainder(data: seq<byte>, w: nat)
    requires w == 32
    ensures IsRemainder(Dividend(data, w), Reversed(Crc32.Run(Crc32.ONES, data), w))
  {
    if data == [] {
      WordSizes();
      EmptyRemainder(w, 0xFFFF_FFFF, 32);
    } else {
      var init, b := data[..|data| - 1], data[|data| - 1];
      RunIsRemainder(init, w);
      Crc32.RunBound(Crc32.ONES, init);
      NextDividend(data, init, b, w, 8);
      assert Pow2(8) == 256;
      BitsKeepRemainder(Dividend(init, w), Crc32.Run(Crc32.ONES, init), b, 8, w,
                        Dividend(data, w), Reversed(Crc32.Run(Crc32.ONES, data), w));
    }
  }

  /** The checksum of every message, complemented and in opposite order, is the one remainder of
      the message by the generator. */
  lemma ChecksumIsRemainder(data: seq<byte>, r: nat)
    ensures IsRemainder(Dividend(data, 32), r) <==> r == Reversed(Xor(Crc32.Checksum(data), 0xFFFF_FFFF), 32)
  {
    RunIsRemainder(data, 32);
    XorCancels(Crc32.Run(Crc32.ONES, data), Crc32.ONES);
    if IsRemainder(Dividend(data, 32), r) {
      RemainderIsUnique(Dividend(data, 32), r, Reversed(Crc32.Run(Crc32.ONES, data), 32));
    }
  }
}
