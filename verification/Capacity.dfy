/** When a search for a free block succeeds, stated by counting addresses. */
module Capacity {
  import opened Common
  import opened Words
  import opened Blocks
  import opened IpUtil

  /** The smallest /p-aligned block that holds s: s itself, or the /p block around it. */
  function Rounded(s: Prefix, p: nat): Prefix {
    if s.bits <= p then s else Masked(Prefix(s.addr, p))
  }

  function RoundedAll(siblings: seq<Prefix>, p: nat): (r: seq<Prefix>)
    ensures |r| == |siblings|
    ensures forall i :: 0 <= i < |r| ==> r[i] == Rounded(siblings[i], p)
  {
    if siblings == [] then [] else [Rounded(siblings[0], p)] + RoundedAll(siblings[1..], p)
  }

  /** How many /p slots a sibling of length q can spoil: 2^max(0, p - q). */
  function SlotsSpoiled(siblings: seq<Prefix>, p: nat): nat {
    if siblings == [] then 0
    else Pow2(if siblings[0].bits < p then p - siblings[0].bits else 0) + SlotsSpoiled(siblings[1..], p)
  }

  ghost predicate AllValid(siblings: seq<Prefix>) {
    forall i :: 0 <= i < |siblings| ==> WellFormed(siblings[i])
  }

  /** The /p slot around an address of the space lies inside the space. */
  lemma SlotAround(space: Prefix, p: nat, a: Word) returns (slot: Prefix)
    requires WellFormed(space) && space.bits <= p <= 32 && Has(space, a)
    ensures WellFormed(slot) && slot.bits == p && Has(slot, a) && Inside(slot, space)
  {
    slot := Masked(Prefix(a, p));
    MaskedIsWellFormed(Prefix(a, p));
    NestedOrDisjoint(space, slot);
  }

  /** A slot that meets a sibling lies inside the sibling's rounded block. */
  lemma MetSlotIsCovered(slot: Prefix, s: Prefix)
    requires WellFormed(slot) && WellFormed(s) && !Disjoint(slot, s)
    ensures WellFormed(Rounded(s, slot.bits)) && Inside(slot, Rounded(s, slot.bits))
  {
    var r := Rounded(s, slot.bits);
    if s.bits <= slot.bits {
      NestedOrDisjoint(s, slot);
    } else {
      MaskedIsWellFormed(Prefix(s.addr, slot.bits));
      NestedOrDisjoint(slot, s);
      NestedOrDisjoint(slot, r);
      NestedOrDisjoint(r, slot);
    }
  }

  /** If no /p block is free, the rounded siblings cover the whole space. */
  lemma FullMeansCovered(space: Prefix, p: nat, siblings: seq<Prefix>)
    requires WellFormed(space) && space.bits <= p <= 32 && AllValid(siblings)
    requires !HasFree(space, p, ToSet(siblings))
    ensures Addresses(space) <= Covered(RoundedAll(siblings, p))
  {
    EndsInRange(space);
    forall a | a in Addresses(space)
      ensures a in Covered(RoundedAll(siblings, p))
    {
      var slot := SlotAround(space, p, a);
      assert !IsFree(space, p, ToSet(siblings), slot);
      var s :| s in ToSet(siblings) && !Disjoint(slot, s);
      var i :| 0 <= i < |siblings| && siblings[i] == s;
      MetSlotIsCovered(slot, s);
      CoveredBy(RoundedAll(siblings, p), a);
      assert a in Addresses(RoundedAll(siblings, p)[i]);
    }
  }

  lemma SpoiledSize(s: Prefix, p: nat)
    requires 1 <= p <= 32 && WellFormed(s)
    ensures Size(Rounded(s, p)) == Pow2(32 - p) * Pow2(if s.bits < p then p - s.bits else 0)
  {
    MaskedIsWellFormed(Prefix(s.addr, p));
    Pow2Add(32 - p, if s.bits < p then p - s.bits else 0);
  }

  lemma ProductOrder(s: nat, x: nat, y: nat)
    requires s > 0 && s * x <= s * y
    ensures x <= y
  {
    MultipleOutside(s, x - y);
    assert s * (x - y) == s * x - s * y;
  }

  lemma Factor(x: nat, y: nat, z: nat)
    ensures x * (y + z) == x * y + x * z
  {
  }

  lemma {:induction false} SpoiledSizes(siblings: seq<Prefix>, p: nat)
    requires 1 <= p <= 32 && AllValid(siblings)
    ensures TotalSize(RoundedAll(siblings, p)) == Pow2(32 - p) * SlotsSpoiled(siblings, p)
  {
    if siblings == [] {
    } else {
      var s, rest := siblings[0], siblings[1..];
      SpoiledSize(s, p);
      SpoiledSizes(rest, p);
      var w := Pow2(if s.bits < p then p - s.bits else 0);
      Factor(Pow2(32 - p), w, SlotsSpoiled(rest, p));
      assert RoundedAll(siblings, p)[1..] == RoundedAll(rest, p);
    }
  }

  lemma FullMeansSpoiled(space: Prefix, p: nat, siblings: seq<Prefix>)
    requires WellFormed(space) && space.bits <= p <= 32 && AllValid(siblings)
    requires !HasFree(space, p, ToSet(siblings))
    ensures Slots(space, p) <= SlotsSpoiled(siblings, p)
  {
    var rounded := RoundedAll(siblings, p);
    assert Size(space) <= TotalSize(rounded) by {
      FullMeansCovered(space, p, siblings);
      CardSubset(Addresses(space), Covered(rounded));
      CoveredCard(rounded);
    }
    SpoiledSizes(siblings, p);
    Pow2Add(32 - p, p - space.bits);
    ProductOrder(Pow2(32 - p), Slots(space, p), SlotsSpoiled(siblings, p));
  }

  /** Pigeonhole: siblings of any kind leave a free /p block in a /b space whenever together they
      can spoil fewer than its 2^(p-b) slots. */
  lemma RoomByCounting(space: Prefix, p: nat, siblings: seq<Prefix>)
    requires WellFormed(space) && space.bits <= p <= 32 && AllValid(siblings)
    requires SlotsSpoiled(siblings, p) < Slots(space, p)
    ensures Search(space, p, ToSet(siblings)).Found?
  {
    if !HasFree(space, p, ToSet(siblings)) {
      FullMeansSpoiled(space, p, siblings);
    }
  }

  /** The bound is tight: with that many slots spoiled there need not be a free block. */
  lemma CountingBoundIsTight(space: Prefix)
    requires WellFormed(space)
    ensures SlotsSpoiled([space], space.bits) == Slots(space, space.bits)
    ensures !HasFree(space, space.bits, ToSet([space]))
  {
    assert space in ToSet([space]);
    assert SlotsSpoiled([space][1..], space.bits) == 0;
  }

  /** Disjoint siblings inside the space cover part of it, all of it iff their sizes add up. */
  lemma DisjointInside(space: Prefix, siblings: seq<Prefix>)
    requires PairwiseDisjoint(siblings)
    requires forall i :: 0 <= i < |siblings| ==> Inside(siblings[i], space)
    ensures Covered(siblings) <= Addresses(space)
    ensures TotalSize(siblings) <= Size(space)
    ensures TotalSize(siblings) == Size(space) <==> Covered(siblings) == Addresses(space)
  {
    forall a | a in Covered(siblings)
      ensures a in Addresses(space)
    {
      CoveredBy(siblings, a);
      var i :| 0 <= i < |siblings| && a in Addresses(siblings[i]);
      assert Inside(siblings[i], space);
    }
    CoveredCard(siblings);
    CardSubset(Covered(siblings), Addresses(space));
  }

  lemma FreeMeansUncovered(space: Prefix, p: nat, siblings: seq<Prefix>, b: Prefix)
    requires IsFree(space, p, ToSet(siblings), b)
    ensures b.addr in Addresses(space) && b.addr !in Covered(siblings)
  {
    CoveredBy(siblings, b.addr);
    forall i | 0 <= i < |siblings|
      ensures b.addr !in Addresses(siblings[i])
    {
      assert siblings[i] in ToSet(siblings);
    }
  }

  lemma {:induction false} NothingToRound(siblings: seq<Prefix>, p: nat)
    requires forall i :: 0 <= i < |siblings| ==> siblings[i].bits <= p
    ensures RoundedAll(siblings, p) == siblings
  {
  }

  /** Exact capacity: with disjoint siblings inside the space, none smaller than a /p block,
      there is no free /p block if and only if the sibling sizes add up to the whole space. */
  lemma ExactCapacity(space: Prefix, p: nat, siblings: seq<Prefix>)
    requires WellFormed(space) && space.bits <= p <= 32 && AllValid(siblings)
    requires PairwiseDisjoint(siblings)
    requires forall i :: 0 <= i < |siblings| ==> Inside(siblings[i], space)
    requires forall i :: 0 <= i < |siblings| ==> siblings[i].bits <= p
    ensures !Search(space, p, ToSet(siblings)).Found? <==> TotalSize(siblings) == Size(space)
    ensures Search(space, p, ToSet(siblings)) == Exhausted
       <==> TotalSize(siblings) == Size(space) && LastAddr(space) < MAX_WORD
  {
    DisjointInside(space, siblings);
    if HasFree(space, p, ToSet(siblings)) {
      var b :| IsFree(space, p, ToSet(siblings), b);
      FreeMeansUncovered(space, p, siblings, b);
    } else {
      FullMeansCovered(space, p, siblings);
      NothingToRound(siblings, p);
    }
  }

  // ---- filling an empty space ---------------------------------------------------------

  /** b is one of the first k /p slots of the space. */
  ghost predicate IsSlotBelow(space: Prefix, p: nat, k: nat, b: Prefix) {
    b.bits == p && exists i: nat :: i < k && b.addr == Slot(space, p, i)
  }

  /** The taken blocks are the first k slots. */
  ghost predicate FirstSlots(space: Prefix, p: nat, k: nat, taken: set<Prefix>) {
    forall b :: b in taken <==> IsSlotBelow(space, p, k, b)
  }

  /** With the first k slots taken the next block is slot k; when all 2^(p-b) are taken there is none. */
  lemma NextSlot(space: Prefix, p: nat, k: nat, taken: set<Prefix>)
    requires WellFormed(space) && space.bits <= p <= 32 && FirstSlots(space, p, k, taken)
    requires k <= Slots(space, p)
    ensures k < Slots(space, p) ==>
              Slot(space, p, k) < WORD_SIZE && Search(space, p, taken) == Found(Prefix(Slot(space, p, k), p))
    ensures k == Slots(space, p) ==> !Search(space, p, taken).Found?
  {
    if k < Slots(space, p) {
      SlotIsBlock(space, p, k);
      FreeSlot(space, p, k, taken);
    }
    forall c | IsFree(space, p, taken, c)
      ensures k < Slots(space, p) && Slot(space, p, k) <= c.addr
    {
      NothingLower(space, p, k, taken, c);
    }
  }

  lemma NothingLower(space: Prefix, p: nat, k: nat, taken: set<Prefix>, c: Prefix)
    requires WellFormed(space) && space.bits <= p <= 32 && FirstSlots(space, p, k, taken)
    requires IsFree(space, p, taken, c)
    ensures k < Slots(space, p) && Slot(space, p, k) <= c.addr
  {
    var i := BlockIsSlot(space, p, c);
    assert !IsSlotBelow(space, p, k, c);
    assert k <= i;
    if k < i {
      SlotOrder(space, p, k, i);
    }
  }

  lemma FreeSlot(space: Prefix, p: nat, k: nat, taken: set<Prefix>)
    requires WellFormed(space) && space.bits <= p <= 32 && FirstSlots(space, p, k, taken)
    requires k < Slots(space, p) && Slot(space, p, k) < WORD_SIZE
    ensures IsFree(space, p, taken, Prefix(Slot(space, p, k), p))
  {
    SlotIsBlock(space, p, k);
    forall s | s in taken
      ensures Disjoint(Prefix(Slot(space, p, k), p), s)
    {
      assert IsSlotBelow(space, p, k, s);
      var i: nat :| i < k && s.addr == Slot(space, p, i);
      SlotOrder(space, p, i, k);
    }
  }
}
