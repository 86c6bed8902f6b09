/** Unsigned 32-bit words, as the Go program uses them.

    A word is a natural number below 2^32.  Addition, subtraction and left shift wrap
    or truncate explicitly.  The bitwise operators are defined digit by digit in base 2,
    and the lemmas below say what they compute in ordinary arithmetic.
 */
module Words {

  const WORD_SIZE: nat := 0x1_0000_0000
  const MAX_WORD: nat := 0xFFFF_FFFF

  type Word = x: int | 0 <= x < 0x1_0000_0000

  function Pow2(n: nat): (r: nat)
    ensures r > 0
  {
    if n == 0 then 1 else 2 * Pow2(n - 1)
  }

  /** x + y on a uint32. */
  function Add(x: Word, y: Word): Word {
    (x + y) % WORD_SIZE
  }

  /** x - y on a uint32. */
  function Sub(x: Word, y: Word): Word {
    (x - y) % WORD_SIZE
  }

  /** x << k on a uint32. */
  function Shl(x: Word, k: nat): Word {
    (x * Pow2(k)) % WORD_SIZE
  }

  /** x >> k on a uint32. */
  function Shr(x: Word, k: nat): (r: Word) {
    DivBound(x, Pow2(k));
    x / Pow2(k)
  }

  /** ^x on a uint32. */
  function Not(x: Word): Word {
    MAX_WORD - x
  }

  /** Bitwise and of the n lowest bits of x and y. */
  function AndBits(x: nat, y: nat, n: nat): nat {
    if n == 0 then 0
    else 2 * AndBits(x / 2, y / 2, n - 1) + (if x % 2 == 1 && y % 2 == 1 then 1 else 0)
  }

  /** Bitwise or of the n lowest bits of x and y. */
  function OrBits(x: nat, y: nat, n: nat): nat {
    if n == 0 then 0
    else 2 * OrBits(x / 2, y / 2, n - 1) + (if x % 2 == 1 || y % 2 == 1 then 1 else 0)
  }

  /** Bitwise exclusive or of the n lowest bits of x and y. */
  function XorBits(x: nat, y: nat, n: nat): nat {
    if n == 0 then 0
    else 2 * XorBits(x / 2, y / 2, n - 1) + (if x % 2 != y % 2 then 1 else 0)
  }

  function And(x: Word, y: Word): Word {
    BitsFitWord(x, y);
    AndBits(x, y, 32)
  }

  function Or(x: Word, y: Word): Word {
    BitsFitWord(x, y);
    OrBits(x, y, 32)
  }

  function Xor(x: Word, y: Word): Word {
    BitsFitWord(x, y);
    XorBits(x, y, 32)
  }

  lemma MulAtLeast(d: nat, q: nat)
    requires d > 0
    ensures d * q >= q
  {
  }

  lemma DivBound(x: nat, d: nat)
    requires d > 0
    ensures 0 <= x / d <= x
  {
    var q := x / d;
    assert x == d * q + x % d;
    MultipleOutside(d, q);
    assert q >= 0;
    MulAtLeast(d, q);
  }

  lemma BitsFitWord(x: Word, y: Word)
    ensures AndBits(x, y, 32) < WORD_SIZE
    ensures OrBits(x, y, 32) < WORD_SIZE
    ensures XorBits(x, y, 32) < WORD_SIZE
  {
    BitsFit(x, y, 32);
    Pow2Of32();
  }

  lemma {:induction false} BitsFit(x: nat, y: nat, n: nat)
    ensures AndBits(x, y, n) < Pow2(n)
    ensures OrBits(x, y, n) < Pow2(n)
    ensures XorBits(x, y, n) < Pow2(n)
  {
    if n > 0 {
      BitsFit(x / 2, y / 2, n - 1);
    }
  }

  lemma {:induction false} Pow2Add(a: nat, b: nat)
    ensures Pow2(a + b) == Pow2(a) * Pow2(b)
  {
    if a == 0 {
    } else {
      Pow2Add(a - 1, b);
      assert Pow2(a + b) == 2 * Pow2(a - 1 + b);
    }
  }

  lemma {:induction false} Pow2Monotone(a: nat, b: nat)
    requires a <= b
    ensures Pow2(a) <= Pow2(b)
    ensures a < b ==> 2 * Pow2(a) <= Pow2(b)
  {
    if a < b {
      Pow2Monotone(a, b - 1);
    }
  }

  /** Pow2(32) is the number of words. */
  lemma Pow2Of32()
    ensures Pow2(32) == WORD_SIZE
  {
    assert Pow2(8) == 256;
    Pow2Add(8, 8);
    Pow2Add(16, 16);
  }

  /** A power of two up to 2^32 divides 2^32. */
  lemma Pow2Splits(k: nat)
    requires k <= 32
    ensures Pow2(32 - k) * Pow2(k) == WORD_SIZE
    ensures k > 0 ==> Pow2(32 - k) < WORD_SIZE
    ensures Pow2(32 - k) <= WORD_SIZE
  {
    Pow2Of32();
    Pow2Add(32 - k, k);
    if k > 0 { Pow2Monotone(32 - k, 32); }
    Pow2Monotone(32 - k, 32);
  }

  lemma MultipleOutside(d: int, t: int)
    requires d > 0
    ensures t >= 1 ==> d * t >= d
    ensures t <= -1 ==> d * t <= -d
  {
  }

  lemma DivModUnique(x: int, d: int, q: int, r: int)
    requires d > 0 && x == d * q + r && 0 <= r < d
    ensures x / d == q && x % d == r
  {
    var t := x / d - q;
    assert d * t == d * (x / d) - d * q;
    MultipleOutside(d, t);
  }

  /** A sum of words wraps at most once. */
  lemma AddValue(x: Word, y: Word)
    ensures Add(x, y) == if x + y < WORD_SIZE then x + y else x + y - WORD_SIZE
  {
    if x + y < WORD_SIZE {
      DivModUnique(x + y, WORD_SIZE, 0, x + y);
    } else {
      DivModUnique(x + y, WORD_SIZE, 1, x + y - WORD_SIZE);
    }
  }

  lemma SubValue(x: Word, y: Word)
    ensures Sub(x, y) == if x >= y then x - y else x - y + WORD_SIZE
  {
    if x >= y {
      DivModUnique(x - y, WORD_SIZE, 0, x - y);
    } else {
      DivModUnique(x - y, WORD_SIZE, -1, x - y + WORD_SIZE);
    }
  }

  lemma ShlOne(k: nat)
    requires k < 32
    ensures Shl(1, k) == Pow2(k)
  {
    Pow2Of32();
    Pow2Monotone(k, 32);
    DivModUnique(1 * Pow2(k), WORD_SIZE, 0, Pow2(k));
  }

  /** The remainder modulo 2m, one binary digit at a time. */
  lemma ModDouble(x: nat, m: nat)
    requires m > 0
    ensures x % (2 * m) == 2 * ((x / 2) % m) + x % 2
    ensures x / (2 * m) == (x / 2) / m
  {
    var h := x / 2;
    assert h == m * (h / m) + h % m;
    assert x == 2 * (m * (h / m) + h % m) + x % 2;
    assert x == (2 * m) * (h / m) + (2 * (h % m) + x % 2);
    DivModUnique(x, 2 * m, h / m, 2 * (h % m) + x % 2);
  }

  /** The k lowest bits of x. */
  function LowBits(x: nat, k: nat): nat {
    if k == 0 then 0 else 2 * LowBits(x / 2, k - 1) + x % 2
  }

  lemma {:induction false} LowBitsAreRemainder(x: nat, k: nat)
    ensures LowBits(x, k) == x % Pow2(k)
  {
    if k > 0 {
      LowBitsAreRemainder(x / 2, k - 1);
      ModDouble(x, Pow2(k - 1));
    }
  }

  /** x is a multiple of 2^k. */
  predicate Aligned(x: nat, k: nat) {
    LowBits(x, k) == 0
  }

  /** Clearing the low bits leaves the greatest multiple of 2^k up to x. */
  lemma {:induction false} ClearLowBits(x: nat, k: nat)
    ensures LowBits(x, k) <= x && LowBits(x, k) < Pow2(k)
    ensures Aligned(x - LowBits(x, k), k)
  {
    if k > 0 {
      ClearLowBits(x / 2, k - 1);
      assert (x - LowBits(x, k)) / 2 == x / 2 - LowBits(x / 2, k - 1);
    }
  }

  lemma {:induction false} AlignedWeaken(x: nat, j: nat, k: nat)
    requires j <= k && Aligned(x, k)
    ensures Aligned(x, j)
  {
    if j > 0 {
      AlignedWeaken(x / 2, j - 1, k - 1);
    }
  }

  lemma {:induction false} AlignedSum(x: nat, y: nat, k: nat)
    requires Aligned(x, k) && Aligned(y, k)
    ensures Aligned(x + y, k)
    ensures x <= y ==> Aligned(y - x, k)
  {
    if k > 0 {
      AlignedSum(x / 2, y / 2, k - 1);
      assert (x + y) / 2 == x / 2 + y / 2;
      if x <= y {
        assert (y - x) / 2 == y / 2 - x / 2;
      }
    }
  }

  lemma {:induction false} PowerAligned(j: nat, k: nat)
    requires j <= k
    ensures Aligned(Pow2(k), j)
  {
    if j > 0 {
      PowerAligned(j - 1, k - 1);
    }
  }

  lemma {:induction false} AlignedApart(x: nat, w: nat, k: nat)
    requires Aligned(x, k) && Aligned(w, k) && x < w
    ensures x + Pow2(k) <= w
  {
    if k > 0 {
      AlignedApart(x / 2, w / 2, k - 1);
    }
  }

  lemma {:induction false} AndWithHighOnes(x: nat, k: nat, n: nat, ones: nat)
    requires k <= n && x < Pow2(n) && ones + Pow2(k) == Pow2(n)
    ensures AndBits(x, ones, n) == x - LowBits(x, k)
  {
    if n > 0 {
      var k' := if k == 0 then 0 else k - 1;
      AndWithHighOnes(x / 2, k', n - 1, ones / 2);
    }
  }

  lemma ShiftedOnes(k: nat)
    requires k <= 32
    ensures Pow2(k) <= WORD_SIZE
    ensures k < 32 ==> Shl(Not(0), k) == WORD_SIZE - Pow2(k)
  {
    Pow2Splits(32 - k);
    if k < 32 {
      Pow2Monotone(k, 32);
      Pow2Of32();
      var p := Pow2(k);
      assert MAX_WORD * p == WORD_SIZE * (p - 1) + (WORD_SIZE - p);
      DivModUnique(MAX_WORD * p, WORD_SIZE, p - 1, WORD_SIZE - p);
    }
  }

  /** Masking with ^0 << k clears the k low bits. */
  lemma MaskClearsLowBits(x: Word, k: nat)
    requires k < 32
    ensures And(x, Shl(Not(0), k)) == x - LowBits(x, k)
  {
    ShiftedOnes(k);
    Pow2Of32();
    AndWithHighOnes(x, k, 32, WORD_SIZE - Pow2(k));
  }

  lemma {:induction false} XorZero(x: nat, y: nat, n: nat)
    requires x < Pow2(n) && y < Pow2(n)
    ensures XorBits(x, y, n) == 0 <==> x == y
  {
    if n > 0 {
      XorZero(x / 2, y / 2, n - 1);
    }
  }

  lemma {:induction false} XorShifted(x: nat, y: nat, k: nat, n: nat)
    requires k <= n && x < Pow2(n) && y < Pow2(n)
    ensures XorBits(x, y, n) / Pow2(k) == 0 <==> x / Pow2(k) == y / Pow2(k)
  {
    if k == 0 {
      XorZero(x, y, n);
      assert Pow2(0) == 1;
    } else {
      XorShifted(x / 2, y / 2, k - 1, n - 1);
      ModDouble(XorBits(x, y, n), Pow2(k - 1));
      ModDouble(x, Pow2(k - 1));
      ModDouble(y, Pow2(k - 1));
      assert XorBits(x, y, n) / 2 == XorBits(x / 2, y / 2, n - 1);
    }
  }

  /** The exclusive or of two words vanishes above bit k exactly when they agree there. */
  lemma XorComparesHighBits(x: Word, y: Word, k: nat)
    requires k <= 32
    ensures Shr(Xor(x, y), k) == 0 <==> x / Pow2(k) == y / Pow2(k)
  {
    Pow2Of32();
    XorShifted(x, y, k, 32);
  }

  lemma {:induction false} OrDisjoint(high: nat, low: nat, k: nat, n: nat)
    requires k <= n && low < Pow2(k) && high % Pow2(k) == 0 && high < Pow2(n)
    ensures OrBits(high, low, n) == high + low
  {
    if n == 0 {
    } else if k == 0 {
      assert low == 0;
      OrDisjoint(high / 2, 0, 0, n - 1);
    } else {
      ModDouble(high, Pow2(k - 1));
      OrDisjoint(high / 2, low / 2, k - 1, n - 1);
    }
  }

  // ---- the four octets of an address ------------------------------------------------

  type Octet = x: int | 0 <= x < 256

  datatype Octets = Octets(b0: Octet, b1: Octet, b2: Octet, b3: Octet)

  /** byte(value) */
  function Low(value: Word): Octet {
    value % 256
  }

  /** addrToUint32 */
  function FromOctets(b: Octets): Word {
    Or(Or(Or(Shl(b.b0, 24), Shl(b.b1, 16)), Shl(b.b2, 8)), b.b3)
  }

  /** uint32ToAddr */
  function ToOctets(value: Word): Octets {
    Octets(Low(Shr(value, 24)), Low(Shr(value, 16)), Low(Shr(value, 8)), Low(value))
  }

  lemma OctetPowers()
    ensures Pow2(8) == 0x100 && Pow2(16) == 0x1_0000 && Pow2(24) == 0x100_0000 && Pow2(32) == WORD_SIZE
  {
    Pow2Add(8, 8);
    Pow2Add(8, 16);
    Pow2Of32();
  }

  lemma ShlOctet(b: Octet)
    ensures Shl(b, 24) == b * 0x100_0000
    ensures Shl(b, 16) == b * 0x1_0000
    ensures Shl(b, 8) == b * 0x100
  {
    OctetPowers();
    DivModUnique(b * 0x100_0000, WORD_SIZE, 0, b * 0x100_0000);
    DivModUnique(b * 0x1_0000, WORD_SIZE, 0, b * 0x1_0000);
    DivModUnique(b * 0x100, WORD_SIZE, 0, b * 0x100);
  }

  lemma OrOctets(high: nat, low: nat, k: nat, q: nat)
    requires k <= 32 && low < Pow2(k) && high == Pow2(k) * q && high < WORD_SIZE && low < WORD_SIZE
    ensures Or(high, low) == high + low
  {
    DivModUnique(high, Pow2(k), q, 0);
    Pow2Of32();
    OrDisjoint(high, low, k, 32);
  }

  lemma FromOctetsValue(b: Octets)
    ensures FromOctets(b) == b.b0 * 0x100_0000 + b.b1 * 0x1_0000 + b.b2 * 0x100 + b.b3
  {
    OctetPowers();
    ShlOctet(b.b0);
    ShlOctet(b.b1);
    ShlOctet(b.b2);
    OrOctets(b.b0 * 0x100_0000, b.b1 * 0x1_0000, 24, b.b0);
    OrOctets(b.b0 * 0x100_0000 + b.b1 * 0x1_0000, b.b2 * 0x100, 16, b.b0 * 256 + b.b1);
    OrOctets(b.b0 * 0x100_0000 + b.b1 * 0x1_0000 + b.b2 * 0x100, b.b3, 8, (b.b0 * 256 + b.b1) * 256 + b.b2);
  }

  lemma ToOctetsValue(value: Word)
    ensures ToOctets(value)
         == Octets(value / 0x100_0000 % 256, value / 0x1_0000 % 256, value / 0x100 % 256, value % 256)
  {
    OctetPowers();
  }

  /** The digits of a number in base 256. */
  lemma OctetDigits(b0: int, b1: Octet, b2: Octet, b3: Octet, value: int)
    requires value == b0 * 0x100_0000 + b1 * 0x1_0000 + b2 * 0x100 + b3
    ensures value / 0x100_0000 == b0
    ensures value / 0x1_0000 == b0 * 0x100 + b1
    ensures value / 0x100 == b0 * 0x1_0000 + b1 * 0x100 + b2
    ensures value % 256 == b3 && value / 0x100 % 256 == b2 && value / 0x1_0000 % 256 == b1
  {
    DivModUnique(value, 0x100_0000, b0, b1 * 0x1_0000 + b2 * 0x100 + b3);
    DivModUnique(value, 0x1_0000, b0 * 0x100 + b1, b2 * 0x100 + b3);
    DivModUnique(value, 0x100, b0 * 0x1_0000 + b1 * 0x100 + b2, b3);
    DivModUnique(value / 0x100, 256, b0 * 0x100 + b1, b2);
    DivModUnique(value / 0x1_0000, 256, b0, b1);
  }

  lemma TopOctet(value: Word) returns (b: Octets)
    ensures value == b.b0 * 0x100_0000 + b.b1 * 0x1_0000 + b.b2 * 0x100 + b.b3
  {
    var q1 := value / 256;
    var q2 := q1 / 256;
    var q3 := q2 / 256;
    assert value == 256 * q1 + value % 256;
    assert q1 == 256 * q2 + q1 % 256;
    assert q2 == 256 * q3 + q2 % 256;
    assert 0 <= q3 < 256;
    b := Octets(q3, q2 % 256, q1 % 256, value % 256);
  }

  lemma ToOctetsDigits(b: Octets, value: Word)
    requires value == b.b0 * 0x100_0000 + b.b1 * 0x1_0000 + b.b2 * 0x100 + b.b3
    ensures ToOctets(value) == b
  {
    OctetDigits(b.b0, b.b1, b.b2, b.b3, value);
    ToOctetsValue(value);
    DivModUnique(b.b0, 256, 0, b.b0);
  }

  /** uint32 and octets are in bijection, so an address may be treated as a word. */
  lemma OctetsRoundTrip(b: Octets, value: Word)
    ensures ToOctets(FromOctets(b)) == b
    ensures FromOctets(ToOctets(value)) == value
  {
    FromOctetsValue(b);
    ToOctetsDigits(b, FromOctets(b));
    var c := TopOctet(value);
    ToOctetsDigits(c, value);
    FromOctetsValue(c);
  }
}
