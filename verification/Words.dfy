/** Bytes and machine words as natural numbers, with the bitwise operators of C and
    Python defined on their binary digits, so that one definition serves both the
    wrapping uint64_t of the firmware and the unbounded integers of the host tools. */
module Words {

  type byte = x: int | 0 <= x < 256

  const M16 := 0x1_0000
  const M32 := 0x1_0000_0000
  const M64 := 0x1_0000_0000_0000_0000

  function Pow2(k: nat): (r: nat)
    ensures r > 0
  {
    if k == 0 then 1 else 2 * Pow2(k - 1)
  }

  function Xor(a: nat, b: nat): nat
    decreases a + b
  {
    if a == 0 && b == 0 then 0
    else (if a % 2 == b % 2 then 0 else 1) + 2 * Xor(a / 2, b / 2)
  }

  function And(a: nat, b: nat): nat {
    if a == 0 || b == 0 then 0
    else (if a % 2 == 1 && b % 2 == 1 then 1 else 0) + 2 * And(a / 2, b / 2)
  }

  function Or(a: nat, b: nat): nat
    decreases a + b
  {
    if a == 0 && b == 0 then 0
    else (if a % 2 == 1 || b % 2 == 1 then 1 else 0) + 2 * Or(a / 2, b / 2)
  }

  /** Binary digit k of x. */
  function Bit(x: nat, k: nat): bool {
    if k == 0 then x % 2 == 1 else Bit(x / 2, k - 1)
  }

  lemma {:induction false} XorHalves(a: nat, b: nat)
    ensures Xor(a, b) / 2 == Xor(a / 2, b / 2)
    ensures Xor(a, b) % 2 == (if a % 2 == b % 2 then 0 else 1)
  {
  }

  lemma {:induction false} AndHalves(a: nat, b: nat)
    ensures And(a, b) / 2 == And(a / 2, b / 2)
    ensures And(a, b) % 2 == (if a % 2 == 1 && b % 2 == 1 then 1 else 0)
  {
  }

  lemma SameDigits(x: nat, y: nat)
    requires x / 2 == y / 2 && x % 2 == y % 2
    ensures x == y
  {
  }

  lemma {:induction false} XorZero(a: nat)
    ensures Xor(a, 0) == a && Xor(0, a) == a
  {
    if a > 0 {
      XorZero(a / 2);
    }
  }

  lemma {:induction false} XorCommutes(a: nat, b: nat)
    ensures Xor(a, b) == Xor(b, a)
    decreases a + b
  {
    if a != 0 || b != 0 {
      XorCommutes(a / 2, b / 2);
    }
  }

  lemma {:induction false} XorSelf(a: nat)
    ensures Xor(a, a) == 0
  {
    if a > 0 {
      XorSelf(a / 2);
    }
  }

  lemma {:induction false} XorAssociatesDigits(a: nat, b: nat, c: nat, ab: nat, bc: nat)
    requires ab == Xor(a, b) && bc == Xor(b, c)
    requires Xor(Xor(a / 2, b / 2), c / 2) == Xor(a / 2, Xor(b / 2, c / 2))
    ensures Xor(ab, c) == Xor(a, bc)
  {
    XorHalves(a, b);
    XorHalves(b, c);
    XorHalves(ab, c);
    XorHalves(a, bc);
    SameDigits(Xor(ab, c), Xor(a, bc));
  }

  lemma {:induction false} XorAssociates(a: nat, b: nat, c: nat)
    ensures Xor(Xor(a, b), c) == Xor(a, Xor(b, c))
    decreases a + b + c
  {
    if a != 0 || b != 0 || c != 0 {
      XorAssociates(a / 2, b / 2, c / 2);
      XorAssociatesDigits(a, b, c, Xor(a, b), Xor(b, c));
    }
  }

  lemma XorCancels(a: nat, b: nat)
    ensures Xor(Xor(a, b), b) == a
  {
    XorAssociates(a, b, b);
    XorSelf(b);
    XorZero(a);
  }

  lemma {:induction false} XorBound(a: nat, b: nat, k: nat)
    requires a < Pow2(k) && b < Pow2(k)
    ensures Xor(a, b) < Pow2(k)
  {
    if k > 0 {
      XorBound(a / 2, b / 2, k - 1);
    }
  }

  /** A set top digit survives xor with any shorter number. */
  lemma {:induction false} XorKeepsTopBit(a: nat, p: nat, k: nat)
    requires a < Pow2(k) <= p < Pow2(k + 1)
    ensures Xor(a, p) >= Pow2(k)
  {
    if k > 0 {
      XorKeepsTopBit(a / 2, p / 2, k - 1);
    } else {
      XorZero(1);
    }
  }

  lemma DoubleProduct(p: nat, x: nat)
    ensures (2 * p) * x == 2 * (p * x)
  {
  }

  lemma {:induction false} XorOfDoubled(low: nat, half: nat)
    requires Xor(low / 2, half) == low / 2 + half
    ensures Xor(low, 2 * half) == low + 2 * half
  {
    XorHalves(low, 2 * half);
    SameDigits(Xor(low, 2 * half), low + 2 * half);
  }

  /** Xor of digit ranges that do not overlap is addition. */
  lemma {:induction false} XorDisjoint(low: nat, high: nat, k: nat)
    requires low < Pow2(k)
    ensures Xor(low, Pow2(k) * high) == low + Pow2(k) * high
  {
    if k == 0 {
      XorZero(high);
    } else {
      var half := Pow2(k - 1) * high;
      XorDisjoint(low / 2, high, k - 1);
      XorOfDoubled(low, half);
      DoubleProduct(Pow2(k - 1), high);
    }
  }

  lemma XorDisjointByte(low: byte, high: nat)
    ensures Xor(low, 256 * high) == low + 256 * high
  {
    assert Pow2(8) == 256;
    XorDisjoint(low, high, 8);
  }

  lemma XorBytes(a: byte, b: byte)
    ensures Xor(a, b) < 256
  {
    assert Pow2(8) == 256;
    XorBound(a, b, 8);
  }

  lemma ModOfDouble(x: nat, m: nat)
    requires m > 0
    ensures x % (2 * m) == x % 2 + 2 * (x / 2 % m)
  {
    var q, r := x / 2 / m, x / 2 % m;
    assert x == x % 2 + 2 * (q * m + r);
    DivModUnique(x, 2 * m, q, x % 2 + 2 * r);
  }

  lemma MulAtLeast(n: int, d: nat)
    requires n >= 1
    ensures n * d >= d
  {
  }

  lemma DivModUnique(x: int, d: nat, q: int, r: nat)
    requires r < d && x == q * d + r
    ensures x / d == q && x % d == r
  {
    var q', r' := x / d, x % d;
    assert q * d + r == q' * d + r';
    assert (q - q') * d == q * d - q' * d == -((q' - q) * d);
    if q > q' {
      MulAtLeast(q - q', d);
    } else if q < q' {
      MulAtLeast(q' - q, d);
    }
  }

  /** Python's `x & ((1 << k) - 1)` is C's reduction modulo 2^k. */
  lemma {:induction false} MaskIsModulo(x: nat, k: nat)
    ensures And(x, Pow2(k) - 1) == x % Pow2(k)
  {
    if k > 0 {
      var m := Pow2(k - 1);
      MaskIsModulo(x / 2, k - 1);
      ModOfDouble(x, m);
      assert (2 * m - 1) / 2 == m - 1 && (2 * m - 1) % 2 == 1;
      AndHalves(x, 2 * m - 1);
    }
  }

  lemma {:induction false} AndOfDoubled(a: nat, h: nat)
    ensures And(a, 2 * h) == 2 * And(a / 2, h)
  {
    AndHalves(a, 2 * h);
  }

  function Doubled(x: nat, k: nat): nat {
    if k == 0 then x else 2 * Doubled(x, k - 1)
  }

  function Halved(x: nat, k: nat): nat
    decreases k
  {
    if k == 0 then x else Halved(x / 2, k - 1)
  }

  lemma {:induction false} OrZero(a: nat)
    ensures Or(a, 0) == a
  {
    if a > 0 {
      OrZero(a / 2);
    }
  }

  /** Or of digit ranges that do not overlap is addition. */
  lemma {:induction false} OrDisjoint(high: nat, low: nat, k: nat)
    requires low < Pow2(k)
    ensures Or(Doubled(high, k), low) == Doubled(high, k) + low
  {
    if k == 0 {
      OrZero(high);
    } else {
      OrDisjoint(high, low / 2, k - 1);
      OrHalves(Doubled(high, k), low);
    }
  }

  lemma {:induction false} DoubledIsProduct(x: nat, k: nat)
    ensures Doubled(x, k) == Pow2(k) * x
  {
    if k > 0 {
      DoubledIsProduct(x, k - 1);
      DoubleProduct(Pow2(k - 1), x);
    }
  }

  lemma OrOfBytes(high: byte, low: byte)
    ensures Or(256 * high, low) == 256 * high + low
  {
    assert Pow2(8) == 256;
    DoubledIsProduct(high, 8);
    OrDisjoint(high, low, 8);
  }

  /** A mask of high digits looks only at the high digits. */
  lemma {:induction false} AndHighDigits(a: nat, m: nat, k: nat)
    ensures And(a, Doubled(m, k)) == Doubled(And(Halved(a, k), m), k)
    decreases k
  {
    if k > 0 {
      AndOfDoubled(a, Doubled(m, k - 1));
      AndHighDigits(a / 2, m, k - 1);
    }
  }

  lemma WordSizes()
    ensures Pow2(8) == 256 && Pow2(16) == M16 && Pow2(32) == M32 && Pow2(64) == M64
  {
    assert Pow2(16) == 256 * Pow2(8);
    assert Pow2(32) == M16 * Pow2(16) by { PowSum(16, 16); }
    PowSum(32, 32);
  }

  lemma {:induction false} PowSum(a: nat, b: nat)
    ensures Pow2(a + b) == Pow2(a) * Pow2(b)
  {
    if a > 0 {
      PowSum(a - 1, b);
    }
  }

  lemma {:induction false} OrHalves(a: nat, b: nat)
    ensures Or(a, b) / 2 == Or(a / 2, b / 2)
    ensures Or(a, b) % 2 == (if a % 2 == 1 || b % 2 == 1 then 1 else 0)
  {
  }

  lemma {:induction false} BitOfOr(a: nat, b: nat, k: nat)
    ensures Bit(Or(a, b), k) == (Bit(a, k) || Bit(b, k))
  {
    OrHalves(a, b);
    if k > 0 {
      BitOfOr(a / 2, b / 2, k - 1);
    }
  }

  lemma {:induction false} BitOfZero(k: nat)
    ensures !Bit(0, k)
  {
    if k > 0 {
      BitOfZero(k - 1);
    }
  }

  lemma {:induction false} BitOfAnd(a: nat, b: nat, k: nat)
    ensures Bit(And(a, b), k) == (Bit(a, k) && Bit(b, k))
  {
    AndHalves(a, b);
    if k > 0 {
      BitOfAnd(a / 2, b / 2, k - 1);
    }
  }

  lemma {:induction false} OrBound(a: nat, b: nat, k: nat)
    requires a < Pow2(k) && b < Pow2(k)
    ensures Or(a, b) < Pow2(k)
  {
    if k > 0 {
      OrBound(a / 2, b / 2, k - 1);
    }
  }

  lemma {:induction false} AndBound(a: nat, b: nat)
    ensures And(a, b) <= a && And(a, b) <= b
  {
    if a != 0 && b != 0 {
      AndBound(a / 2, b / 2);
    }
  }

  lemma {:induction false} BitOfPow2(j: nat, k: nat)
    ensures Bit(Pow2(j), k) == (j == k)
  {
    if k > 0 && j > 0 {
      BitOfPow2(j - 1, k - 1);
    } else if k > 0 {
      BitOfZero(k - 1);
    }
  }

  // ------------------------------------------------ words stored in bytes

  /** Big-endian 16-bit read: (hi << 8) | lo. */
  function U16(hi: byte, lo: byte): (r: nat)
    ensures r < M16
  {
    hi * 256 + lo
  }

  function LeNat(s: seq<byte>): nat {
    if s == [] then 0 else s[0] + 256 * LeNat(s[1..])
  }

  function LeBytes(x: nat, n: nat): (s: seq<byte>)
    ensures |s| == n
  {
    if n == 0 then [] else [x % 256] + LeBytes(x / 256, n - 1)
  }

  lemma {:induction false} LeRoundTrip(x: nat, n: nat)
    requires x < Pow2(8 * n)
    ensures LeNat(LeBytes(x, n)) == x
  {
    if n > 0 {
      assert Pow2(8 * n) == 256 * Pow2(8 * (n - 1)) by {
        PowSum(8, 8 * (n - 1));
      }
      LeRoundTrip(x / 256, n - 1);
      assert LeBytes(x, n)[1..] == LeBytes(x / 256, n - 1);
    }
  }

  lemma SubSlice(s: seq<byte>, low: nat, high: nat, a: nat, b: nat)
    requires low <= high <= |s| && a <= b <= high - low
    ensures s[low..high][a..b] == s[low + a..low + b]
  {
    var x, y := s[low..high][a..b], s[low + a..low + b];
    assert |x| == |y|;
    forall i | 0 <= i < |x| ensures x[i] == y[i] {
      assert x[i] == s[low..high][a + i] == s[low + a + i];
    }
  }
}
