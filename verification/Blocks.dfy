/** IPv4 prefixes and the sets of addresses they stand for (section 3.1 of RFC 4632).

    The functions Masked, Contains and Overlaps are the bit tests of Go's netip package;
    PrefixContains and LastAddr are the program's own.  The lemmas say that on masked
    prefixes those tests decide exactly the corresponding statements about address sets.
 */
module Blocks {
  import opened Words

  datatype Prefix = Prefix(addr: Word, bits: nat)

  function HostBits(bits: nat): (h: nat)
    ensures h <= 32
  {
    if bits <= 32 then 32 - bits else 0
  }

  /** The number of addresses of a block. */
  function Size(p: Prefix): (n: nat)
    ensures n > 0
  {
    Pow2(HostBits(p.bits))
  }

  /** A masked prefix with a length the service accepts. */
  predicate WellFormed(p: Prefix) {
    1 <= p.bits <= 32 && Aligned(p.addr, HostBits(p.bits))
  }

  ghost function Addresses(p: Prefix): set<int> {
    Interval(p.addr, Size(p))
  }

  /** The n integers from lo on. */
  ghost function Interval(lo: int, n: nat): (r: set<int>)
    ensures forall a :: a in r <==> lo <= a < lo + n
    ensures |r| == n
  {
    if n == 0 then {} else Interval(lo, n - 1) + {lo + n - 1}
  }

  // ---- the program's bit tests ------------------------------------------------------

  function Mask(bits: nat): Word {
    Shl(Not(0), HostBits(bits))
  }

  function Masked(p: Prefix): Prefix {
    Prefix(And(p.addr, Mask(p.bits)), p.bits)
  }

  predicate Contains(p: Prefix, a: Word) {
    Shr(Xor(p.addr, a), HostBits(p.bits)) == 0
  }

  predicate Overlaps(p: Prefix, q: Prefix) {
    p == q ||
    var m := if p.bits < q.bits then p.bits else q.bits;
    m == 0 || And(p.addr, Mask(m)) == And(q.addr, Mask(m))
  }

  predicate PrefixContains(parent: Prefix, child: Prefix) {
    if child.bits < parent.bits then false else Contains(parent, child.addr)
  }

  function LastAddr(p: Prefix): Word {
    if HostBits(p.bits) >= 32 then p.addr
    else Sub(Add(p.addr, Shl(1, HostBits(p.bits))), 1)
  }

  // ---- the same questions in arithmetic ---------------------------------------------

  predicate Has(p: Prefix, a: int) {
    p.addr <= a < p.addr + Size(p)
  }

  predicate Inside(q: Prefix, p: Prefix) {
    p.addr <= q.addr && q.addr + Size(q) <= p.addr + Size(p)
  }

  predicate Disjoint(p: Prefix, q: Prefix) {
    p.addr + Size(p) <= q.addr || q.addr + Size(q) <= p.addr
  }

  /** y is a multiple of 2^k: x falls in the cell of 2^k addresses starting at y exactly when
      clearing its k low bits gives y, and exactly when shifting both by k gives the same. */
  lemma Cell(x: nat, y: nat, k: nat)
    requires Aligned(y, k)
    ensures x - LowBits(x, k) == y <==> y <= x < y + Pow2(k)
    ensures x / Pow2(k) == y / Pow2(k) <==> y <= x < y + Pow2(k)
  {
    LowBitsAreRemainder(x, k);
    LowBitsAreRemainder(y, k);
    CellArithmetic(x, y, Pow2(k));
  }

  lemma CellArithmetic(x: nat, y: nat, s: nat)
    requires s > 0 && y % s == 0
    ensures x - x % s == y <==> y <= x < y + s
    ensures x / s == y / s <==> y <= x < y + s
  {
    var q, r := x / s, y / s;
    assert x == s * q + x % s;
    assert y == s * r;
    assert s * (q - r) == s * q - s * r;
    MultipleOutside(s, q - r);
  }

  lemma SizeBounds(p: Prefix)
    requires 1 <= p.bits <= 32
    ensures Size(p) <= 0x8000_0000
    ensures Aligned(WORD_SIZE, HostBits(p.bits))
    ensures Size(p) * Pow2(p.bits) == WORD_SIZE
  {
    Pow2Splits(p.bits);
    Pow2Of32();
    Pow2Monotone(32 - p.bits, 31);
    assert Pow2(32) == 2 * Pow2(31);
    PowerAligned(32 - p.bits, 32);
  }

  /** A masked block ends at or below the last address. */
  lemma EndsInRange(p: Prefix)
    requires WellFormed(p)
    ensures p.addr + Size(p) <= WORD_SIZE
  {
    SizeBounds(p);
    AlignedApart(p.addr, WORD_SIZE, HostBits(p.bits));
  }

  lemma MaskedAddr(a: Word, bits: nat)
    requires 1 <= bits <= 32
    ensures And(a, Mask(bits)) == a - LowBits(a, 32 - bits)
  {
    MaskClearsLowBits(a, 32 - bits);
  }

  /** Masking yields a well-formed block that holds the address, and is idempotent. */
  lemma MaskedIsWellFormed(p: Prefix)
    requires 1 <= p.bits <= 32
    ensures WellFormed(Masked(p)) && Masked(p).bits == p.bits
    ensures Has(Masked(p), p.addr)
    ensures Masked(p) == p <==> WellFormed(p)
    ensures Masked(Masked(p)) == Masked(p)
  {
    MaskedAddr(p.addr, p.bits);
    ClearLowBits(p.addr, 32 - p.bits);
    MaskedAddr(Masked(p).addr, p.bits);
  }

  lemma ContainsIsMembership(p: Prefix, a: Word)
    requires WellFormed(p)
    ensures Contains(p, a) <==> a in Addresses(p)
    ensures Contains(p, a) <==> Has(p, a)
  {
    XorComparesHighBits(p.addr, a, 32 - p.bits);
    Cell(a, p.addr, 32 - p.bits);
  }

  /** Any two well-formed blocks are nested or disjoint, the longer prefix inside. */
  lemma NestedOrDisjoint(p: Prefix, q: Prefix)
    requires WellFormed(p) && WellFormed(q) && p.bits <= q.bits
    ensures Inside(q, p) || Disjoint(q, p)
    ensures !(Inside(q, p) && Disjoint(q, p))
    ensures Inside(p, q) ==> p == q
  {
    var h, g := 32 - q.bits, 32 - p.bits;
    Pow2Monotone(h, g);
    AlignedWeaken(p.addr, h, g);
    PowerAligned(h, g);
    AlignedSum(p.addr, Pow2(g), h);
    if !Disjoint(q, p) {
      if q.addr < p.addr {
        AlignedApart(q.addr, p.addr, h);
      }
      AlignedApart(q.addr, p.addr + Pow2(g), h);
    }
  }

  /** Inside and Disjoint are inclusion and disjointness of the address sets. */
  lemma SetForms(q: Prefix, p: Prefix)
    ensures Inside(q, p) <==> Addresses(q) <= Addresses(p)
    ensures Disjoint(q, p) <==> Addresses(q) !! Addresses(p)
  {
    var qFirst, qLast, pFirst := q.addr, q.addr + Size(q) - 1, p.addr;
    assert qFirst in Addresses(q) && qLast in Addresses(q) && pFirst in Addresses(p);
    if !Disjoint(q, p) {
      if p.addr <= q.addr {
        assert qFirst in Addresses(p);
      } else {
        assert pFirst in Addresses(q);
      }
    }
  }

  lemma PrefixContainsIsInclusion(p: Prefix, q: Prefix)
    requires WellFormed(p) && WellFormed(q)
    ensures PrefixContains(p, q) <==> Addresses(q) <= Addresses(p)
    ensures PrefixContains(p, q) <==> Inside(q, p)
  {
    SetForms(q, p);
    ContainsIsMembership(p, q.addr);
    if p.bits <= q.bits {
      NestedOrDisjoint(p, q);
    } else {
      NestedOrDisjoint(q, p);
    }
  }

  lemma OverlapsIsIntersection(p: Prefix, q: Prefix)
    requires WellFormed(p) && WellFormed(q)
    ensures Overlaps(p, q) <==> exists a :: a in Addresses(p) && a in Addresses(q)
    ensures Overlaps(p, q) <==> !Disjoint(p, q)
    ensures Overlaps(p, q) <==> Inside(p, q) || Inside(q, p)
  {
    SetForms(p, q);
    if p.bits <= q.bits {
      OverlapsOrdered(p, q);
      NestedOrDisjoint(p, q);
    } else {
      OverlapsOrdered(q, p);
      NestedOrDisjoint(q, p);
    }
    if !Disjoint(p, q) {
      assert exists a :: a in Addresses(p) && a in Addresses(q);
    }
  }

  lemma OverlapsOrdered(p: Prefix, q: Prefix)
    requires WellFormed(p) && WellFormed(q) && p.bits <= q.bits
    ensures Overlaps(p, q) == Overlaps(q, p)
    ensures Overlaps(p, q) <==> Inside(q, p)
  {
    MaskedAddr(p.addr, p.bits);
    MaskedAddr(q.addr, p.bits);
    Cell(q.addr, p.addr, 32 - p.bits);
    NestedOrDisjoint(p, q);
  }

  /** lastAddr is right although start + (1 << h) wraps to 0 for a block ending at 2^32 - 1. */
  lemma LastAddrIsLast(p: Prefix)
    requires WellFormed(p)
    ensures LastAddr(p) == p.addr + Size(p) - 1
  {
    SizeBounds(p);
    EndsInRange(p);
    ShlOne(HostBits(p.bits));
    AddValue(p.addr, Size(p));
    SubValue(Add(p.addr, Size(p)), 1);
  }

  // ---- prefixes that need not be masked, /0 included ---------------------------------

  /** Masking any prefix of a valid length gives a block of addresses around its address. */
  lemma MaskedHolds(p: Prefix)
    requires p.bits <= 32
    ensures Has(Masked(p), p.addr) && Masked(p).addr + Size(Masked(p)) <= WORD_SIZE && Masked(p).bits == p.bits
    ensures p.bits == 0 ==> Masked(p).addr == 0 && Size(Masked(p)) == WORD_SIZE
    ensures p.bits > 0 ==> WellFormed(Masked(p))
  {
    if p.bits == 0 {
      Pow2Of32();
      AllOnesShiftedOut(p.addr);
    } else {
      MaskedIsWellFormed(p);
      EndsInRange(Masked(p));
    }
  }

  /** ^0 << 32 is 0 on a uint32. */
  lemma AllOnesShiftedOut(a: Word)
    ensures And(a, Mask(0)) == 0
  {
    Pow2Of32();
    DivModUnique(MAX_WORD * Pow2(32), WORD_SIZE, MAX_WORD, 0);
    AndWithZero(a, 32);
  }

  lemma {:induction false} AndWithZero(x: nat, n: nat)
    ensures AndBits(x, 0, n) == 0
  {
    if n > 0 {
      AndWithZero(x / 2, n - 1);
    }
  }

  /** Contains tests for the masked block, whether or not the prefix is masked. */
  lemma ContainsMasked(p: Prefix, a: Word)
    requires p.bits <= 32
    ensures Contains(p, a) <==> Has(Masked(p), a)
  {
    MaskedHolds(p);
    XorComparesHighBits(p.addr, a, 32 - p.bits);
    if p.bits == 0 {
      Pow2Of32();
      DivModUnique(p.addr, WORD_SIZE, 0, p.addr);
      DivModUnique(a, WORD_SIZE, 0, a);
    } else {
      Cell(a, Masked(p).addr, 32 - p.bits);
      Cell(p.addr, Masked(p).addr, 32 - p.bits);
    }
  }

  /** PrefixContains is inclusion of the masked blocks. */
  lemma PrefixContainsMasked(p: Prefix, q: Prefix)
    requires p.bits <= 32 && q.bits <= 32
    ensures PrefixContains(p, q) <==> Addresses(Masked(q)) <= Addresses(Masked(p))
  {
    MaskedHolds(p);
    MaskedHolds(q);
    ContainsMasked(p, q.addr);
    SetForms(Masked(q), Masked(p));
    if 0 < p.bits {
      SizeBounds(p);
      if q.bits == 0 {
        assert Size(Masked(p)) < Size(Masked(q));
      } else if p.bits <= q.bits {
        NestedOrDisjoint(Masked(p), Masked(q));
      } else {
        NestedOrDisjoint(Masked(q), Masked(p));
      }
    }
  }

  /** Overlaps is a common address of the masked blocks. */
  lemma OverlapsMasked(p: Prefix, q: Prefix)
    requires p.bits <= 32 && q.bits <= 32
    ensures Overlaps(p, q) <==> !(Addresses(Masked(p)) !! Addresses(Masked(q)))
  {
    MaskedHolds(p);
    MaskedHolds(q);
    SetForms(Masked(p), Masked(q));
    if p.bits > 0 && q.bits > 0 {
      if p.bits <= q.bits {
        OverlapsMaskedOrdered(p, q);
      } else {
        OverlapsMaskedOrdered(q, p);
      }
    }
  }

  /** Two addresses agree in their first bits exactly when one lies in the block of the other. */
  lemma SameCell(p: Prefix, a: Word)
    requires 1 <= p.bits <= 32
    ensures And(p.addr, Mask(p.bits)) == And(a, Mask(p.bits)) <==> Has(Masked(p), a)
  {
    MaskedIsWellFormed(p);
    MaskedAddr(a, p.bits);
    Cell(a, Masked(p).addr, 32 - p.bits);
  }

  lemma OverlapsMaskedOrdered(p: Prefix, q: Prefix)
    requires 1 <= p.bits <= q.bits <= 32
    ensures Overlaps(p, q) == Overlaps(q, p) == !Disjoint(Masked(p), Masked(q))
  {
    MaskedHolds(p);
    MaskedHolds(q);
    SameCell(p, q.addr);
    NestedOrDisjoint(Masked(p), Masked(q));
  }

  /** lastAddr of any prefix: the address itself for /0, else 2^h - 1 further on, wrapping.  It is the
      last address of the block exactly for a masked prefix longer than /0, and for 255.255.255.255/0. */
  lemma LastAddrOfAny(p: Prefix)
    requires p.bits <= 32
    ensures LastAddr(p) == if p.bits == 0 then p.addr
                           else if p.addr + Size(p) - 1 < WORD_SIZE then p.addr + Size(p) - 1
                           else p.addr + Size(p) - 1 - WORD_SIZE
    ensures LastAddr(p) == Masked(p).addr + Size(Masked(p)) - 1
       <==> WellFormed(p) || (p.bits == 0 && p.addr == MAX_WORD)
  {
    MaskedHolds(p);
    if p.bits > 0 {
      SizeBounds(p);
      ShlOne(HostBits(p.bits));
      AddValue(p.addr, Size(p));
      SubValue(Add(p.addr, Size(p)), 1);
      MaskedIsWellFormed(p);
    }
  }

  // ---- total sizes ------------------------------------------------------------------

  function TotalSize(blocks: seq<Prefix>): nat {
    if blocks == [] then 0 else Size(blocks[0]) + TotalSize(blocks[1..])
  }

  ghost function Covered(blocks: seq<Prefix>): set<int> {
    if blocks == [] then {} else Addresses(blocks[0]) + Covered(blocks[1..])
  }

  ghost predicate PairwiseDisjoint(blocks: seq<Prefix>) {
    forall i, j :: 0 <= i < j < |blocks| ==> Disjoint(blocks[i], blocks[j])
  }

  lemma {:induction false} CoveredBy(blocks: seq<Prefix>, a: int)
    ensures a in Covered(blocks) <==> exists i :: 0 <= i < |blocks| && a in Addresses(blocks[i])
  {
    if blocks == [] {
    } else {
      CoveredBy(blocks[1..], a);
      if i :| 0 <= i < |blocks| && a in Addresses(blocks[i]) {
        if i > 0 {
          assert blocks[1..][i - 1] == blocks[i];
        }
      }
      if a in Covered(blocks[1..]) {
        var j :| 0 <= j < |blocks[1..]| && a in Addresses(blocks[1..][j]);
        assert blocks[j + 1] == blocks[1..][j];
      }
    }
  }

  lemma {:induction false} CoveredCard(blocks: seq<Prefix>)
    ensures |Covered(blocks)| <= TotalSize(blocks)
    ensures PairwiseDisjoint(blocks) ==> |Covered(blocks)| == TotalSize(blocks)
  {
    if blocks == [] {
    } else {
      var first, rest := blocks[0], blocks[1..];
      CoveredCard(rest);
      var common := Addresses(first) * Covered(rest);
      assert |Covered(blocks)| == |Addresses(first)| + |Covered(rest)| - |common|;
      if PairwiseDisjoint(blocks) {
        assert PairwiseDisjoint(rest);
        forall a | a in Covered(rest)
          ensures a !in Addresses(first)
        {
          CoveredBy(rest, a);
          var j :| 0 <= j < |rest| && a in Addresses(rest[j]);
          assert rest[j] == blocks[j + 1];
          SetForms(blocks[0], blocks[j + 1]);
        }
        assert common == {};
      }
    }
  }
}
