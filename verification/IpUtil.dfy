/** Address arithmetic of internal/iputil/ipv4.go: parsing, validation and the first-fit
    search for a free aligned block, with the wrap-around of its uint32 loop variable.
 */
module IpUtil {
  import opened Common
  import opened Words
  import opened Blocks

  datatype IpError =
    | InvalidIPv4Address
    | InvalidPrefix
    | PrefixTooBroad
    | OutsideParent
    | OverlapError
    | NoFreeBlock

  /** What netip.ParseAddr makes of an address text. */
  datatype AddressText = NotIPv4 | IPv4(value: Word)

  function ParseIPv4Prefix(address: AddressText, prefixLen: int): (r: Result<Prefix, IpError>)
    ensures r.Ok? <==> 1 <= prefixLen <= 32 && address.IPv4?
    ensures r.Ok? ==> WellFormed(r.value) && r.value.bits == prefixLen && Has(r.value, address.value)
    ensures r == Err(InvalidPrefix) <==> !(1 <= prefixLen <= 32)
  {
    if prefixLen < 1 || prefixLen > 32 then Err(InvalidPrefix)
    else match address
      case NotIPv4 => Err(InvalidIPv4Address)
      case IPv4(a) =>
        MaskedIsWellFormed(Prefix(a, prefixLen));
        Ok(Masked(Prefix(a, prefixLen)))
  }

  /** A well-formed block written out as (address, length) is read back as itself. */
  lemma ReparseIsIdentity(p: Prefix)
    requires WellFormed(p)
    ensures ParseIPv4Prefix(IPv4(p.addr), p.bits) == Ok(p)
  {
    MaskedIsWellFormed(p);
  }

  ghost predicate AllWellFormed(blocks: set<Prefix>) {
    forall s | s in blocks :: WellFormed(s)
  }

  function ToSet(blocks: seq<Prefix>): set<Prefix> {
    set s | s in blocks
  }

  // ---- validation --------------------------------------------------------------------

  /** The verdict on a candidate, in terms of address sets. */
  ghost function Verdict(candidate: Prefix, parent: Option<Prefix>, taken: set<Prefix>): Option<IpError> {
    if candidate.bits < 1 || candidate.bits > 32 then Some(InvalidPrefix)
    else if parent.Some? && candidate.bits < parent.value.bits then Some(PrefixTooBroad)
    else if parent.Some? && !(Addresses(candidate) <= Addresses(parent.value)) then Some(OutsideParent)
    else if exists s :: s in taken && !(Addresses(candidate) !! Addresses(s)) then Some(OverlapError)
    else None
  }

  /** The blocks two prefixes lie in have a common address. */
  ghost predicate Meets(p: Prefix, q: Prefix) {
    !(Addresses(Masked(p)) !! Addresses(Masked(q)))
  }

  ghost predicate MeetsOneOf(p: Prefix, blocks: seq<Prefix>) {
    exists i :: 0 <= i < |blocks| && Meets(p, blocks[i])
  }

  /** The verdict on prefixes of any length up to 32, masked or not: on the blocks they lie in. */
  ghost function AnyVerdict(candidate: Prefix, parent: Option<Prefix>, siblings: seq<Prefix>): Option<IpError> {
    if candidate.bits < 1 || candidate.bits > 32 then Some(InvalidPrefix)
    else if parent.Some? && candidate.bits < parent.value.bits then Some(PrefixTooBroad)
    else if parent.Some? && !(Addresses(Masked(candidate)) <= Addresses(Masked(parent.value))) then Some(OutsideParent)
    else if MeetsOneOf(candidate, siblings) then Some(OverlapError)
    else None
  }

  method ValidateIPv4Subnet(candidate: Prefix, parent: Option<Prefix>, siblings: seq<Prefix>)
    returns (err: Option<IpError>)
    requires parent.Some? ==> parent.value.bits <= 32
    requires forall s :: s in siblings ==> s.bits <= 32
    ensures err == AnyVerdict(candidate, parent, siblings)
  {
    if candidate.bits < 1 || candidate.bits > 32 {
      return Some(InvalidPrefix);
    }
    if parent.Some? {
      PrefixContainsMasked(parent.value, candidate);
      if candidate.bits < parent.value.bits {
        return Some(PrefixTooBroad);
      }
      if !PrefixContains(parent.value, candidate) {
        return Some(OutsideParent);
      }
    }
    for i := 0 to |siblings|
      invariant forall j :: 0 <= j < i ==> !Meets(candidate, siblings[j])
    {
      OverlapsMasked(candidate, siblings[i]);
      if Overlaps(candidate, siblings[i]) {
        assert Meets(candidate, siblings[i]);
        return Some(OverlapError);
      }
    }
    return None;
  }

  /** For masked prefixes, as the service passes them, the blocks are the prefixes themselves. */
  lemma VerdictOfMasked(candidate: Prefix, parent: Option<Prefix>, siblings: seq<Prefix>)
    requires WellFormed(candidate) && (parent.Some? ==> WellFormed(parent.value)) && AllWellFormed(ToSet(siblings))
    ensures AnyVerdict(candidate, parent, siblings) == Verdict(candidate, parent, ToSet(siblings))
  {
    MaskedIsWellFormed(candidate);
    if parent.Some? {
      MaskedIsWellFormed(parent.value);
    }
    forall i | 0 <= i < |siblings|
      ensures Meets(candidate, siblings[i]) <==> !(Addresses(candidate) !! Addresses(siblings[i]))
    {
      assert siblings[i] in ToSet(siblings);
      MaskedIsWellFormed(siblings[i]);
    }
    assert MeetsOneOf(candidate, siblings) <==>
      exists s :: s in ToSet(siblings) && !(Addresses(candidate) !! Addresses(s)) by {
      if s :| s in ToSet(siblings) && !(Addresses(candidate) !! Addresses(s)) {
        var i :| 0 <= i < |siblings| && siblings[i] == s;
        assert Meets(candidate, siblings[i]);
      }
    }
  }

  // ---- free blocks -------------------------------------------------------------------

  /** b is an aligned /p block inside space that meets no taken block. */
  ghost predicate IsFree(space: Prefix, p: nat, taken: set<Prefix>, b: Prefix) {
    WellFormed(b) && b.bits == p && Inside(b, space) && forall s | s in taken :: Disjoint(b, s)
  }

  ghost predicate HasFree(space: Prefix, p: nat, taken: set<Prefix>) {
    exists b :: IsFree(space, p, taken, b)
  }

  ghost predicate IsLowestFree(space: Prefix, p: nat, taken: set<Prefix>, b: Prefix) {
    IsFree(space, p, taken, b) && forall c :: IsFree(space, p, taken, c) ==> b.addr <= c.addr
  }

  lemma {:induction false} LowestFreeExists(space: Prefix, p: nat, taken: set<Prefix>, b: Prefix) returns (l: Prefix)
    requires IsFree(space, p, taken, b)
    ensures IsLowestFree(space, p, taken, l)
    decreases b.addr
  {
    if c :| IsFree(space, p, taken, c) && c.addr < b.addr {
      l := LowestFreeExists(space, p, taken, c);
    } else {
      l := b;
    }
  }

  /** What a search for a free block does: find one, give up, or run forever. */
  datatype SearchResult = Found(block: Prefix) | Exhausted | Diverges

  ghost function Search(space: Prefix, p: nat, taken: set<Prefix>): (r: SearchResult)
    ensures r.Found? <==> HasFree(space, p, taken)
    ensures r.Found? ==> IsLowestFree(space, p, taken, r.block)
    ensures r.Diverges? <==> !HasFree(space, p, taken) && LastAddr(space) == MAX_WORD
  {
    if HasFree(space, p, taken) then
      assert exists l :: IsLowestFree(space, p, taken, l) by {
        var b :| IsFree(space, p, taken, b);
        var l := LowestFreeExists(space, p, taken, b);
      }
      var l :| IsLowestFree(space, p, taken, l);
      Found(l)
    else if LastAddr(space) < MAX_WORD then Exhausted
    else Diverges
  }

  // ---- the search loop as a machine on uint32 ----------------------------------------

  datatype LoopState = At(candidate: Word) | Returned(block: Option<Prefix>)

  function StepSize(p: nat): Word
    requires 1 <= p <= 32
  {
    Shl(1, 32 - p)
  }

  /** The loop variable when the loop is entered. */
  function LoopEntry(space: Prefix, p: nat): LoopState
    requires 1 <= p <= 32
  {
    var candidate := And(space.addr, Mask(p));
    At(if candidate < space.addr then Add(candidate, StepSize(p)) else candidate)
  }

  predicate HitsSibling(block: Prefix, taken: set<Prefix>) {
    exists s | s in taken :: Overlaps(block, s)
  }

  /** One evaluation of the loop condition and, if it holds, of the body. */
  function LoopStep(space: Prefix, p: nat, taken: set<Prefix>, s: LoopState): LoopState
    requires 1 <= p <= 32
  {
    match s
    case Returned(_) => s
    case At(c) =>
      if c > LastAddr(space) then Returned(None)
      else if !Contains(space, c) then At(Add(c, StepSize(p)))
      else
        var block := Masked(Prefix(c, p));
        if HitsSibling(block, taken) then At(Add(c, StepSize(p))) else Returned(Some(block))
  }

  function LoopAfter(space: Prefix, p: nat, taken: set<Prefix>, n: nat): LoopState
    requires 1 <= p <= 32
  {
    if n == 0 then LoopEntry(space, p)
    else LoopStep(space, p, taken, LoopAfter(space, p, taken, n - 1))
  }

  ghost predicate Setting(space: Prefix, p: nat, taken: set<Prefix>) {
    WellFormed(space) && space.bits <= p <= 32 && AllWellFormed(taken)
  }

  /** The block size the search walks in, as an integer. */
  ghost function Stride(p: nat): (s: nat)
    ensures s > 0
  {
    Pow2(HostBits(p))
  }

  lemma StepSizeValue(p: nat)
    requires 1 <= p <= 32
    ensures StepSize(p) == Stride(p)
  {
    ShlOne(32 - p);
  }

  /** An address a /p block may start at. */
  predicate OnStride(p: nat, c: nat) {
    Aligned(c, HostBits(p))
  }

  /** One wrapping increment of an aligned candidate. */
  lemma NextCandidate(p: nat, c: Word)
    requires 1 <= p <= 32 && OnStride(p, c)
    ensures c + Stride(p) <= WORD_SIZE
    ensures Add(c, StepSize(p)) == if c + Stride(p) == WORD_SIZE then 0 else c + Stride(p)
    ensures OnStride(p, Add(c, StepSize(p)))
  {
    var s := Stride(p);
    StepSizeValue(p);
    SizeBounds(Prefix(0, p));
    AlignedApart(c, WORD_SIZE, HostBits(p));
    PowerAligned(HostBits(p), HostBits(p));
    AlignedSum(c, s, HostBits(p));
    AlignedSum(WORD_SIZE, WORD_SIZE, HostBits(p));
    AddValue(c, s);
  }

  lemma SpaceIsAligned(space: Prefix, p: nat)
    requires WellFormed(space) && space.bits <= p <= 32
    ensures OnStride(p, space.addr)
    ensures LoopEntry(space, p) == At(space.addr)
  {
    AlignedWeaken(space.addr, 32 - p, 32 - space.bits);
    MaskedAddr(space.addr, p);
  }

  /** At an aligned candidate inside the space the loop stops exactly when the block is free. */
  lemma StepInside(space: Prefix, p: nat, taken: set<Prefix>, c: Word)
    requires Setting(space, p, taken) && OnStride(p, c) && Has(space, c)
    ensures LoopStep(space, p, taken, At(c))
         == if IsFree(space, p, taken, Prefix(c, p)) then Returned(Some(Prefix(c, p)))
            else At(Add(c, StepSize(p)))
  {
    var b := Prefix(c, p);
    LastAddrIsLast(space);
    ContainsIsMembership(space, c);
    MaskedIsWellFormed(b);
    NestedOrDisjoint(space, b);
    forall s | s in taken
      ensures Overlaps(b, s) <==> !Disjoint(b, s)
    {
      OverlapsIsIntersection(b, s);
    }
  }

  /** Outside the space, but not beyond its last address, the loop just moves on. */
  lemma StepBefore(space: Prefix, p: nat, taken: set<Prefix>, c: Word)
    requires Setting(space, p, taken) && c < space.addr
    ensures LoopStep(space, p, taken, At(c)) == At(Add(c, StepSize(p)))
  {
    LastAddrIsLast(space);
    ContainsIsMembership(space, c);
  }

  /** No free block starts below address x. */
  ghost predicate NoneBelow(space: Prefix, p: nat, taken: set<Prefix>, x: int) {
    forall b :: IsFree(space, p, taken, b) ==> x <= b.addr
  }

  /** The k-th /p slot of the space, over the integers. */
  function Slot(space: Prefix, p: nat, k: nat): (r: nat)
    ensures r >= space.addr
  {
    if k == 0 then space.addr else Slot(space, p, k - 1) + Pow2(HostBits(p))
  }

  /** How many /p slots a space has. */
  function Slots(space: Prefix, p: nat): nat {
    if space.bits <= p then Pow2(p - space.bits) else 0
  }

  lemma {:induction false} SlotValue(space: Prefix, p: nat, k: nat)
    ensures Slot(space, p, k) == space.addr + k * Stride(p)
  {
    if k > 0 {
      SlotValue(space, p, k - 1);
      Distribute(k - 1, 1, Stride(p));
    }
  }

  lemma Distribute(x: nat, y: nat, s: nat)
    ensures (x + y) * s == x * s + y * s
  {
  }

  lemma {:induction false} SlotOrder(space: Prefix, p: nat, i: nat, j: nat)
    requires i < j
    ensures Slot(space, p, i) + Stride(p) <= Slot(space, p, j)
  {
    if i + 1 < j {
      SlotOrder(space, p, i, j - 1);
    }
  }

  lemma {:induction false} SlotAligned(space: Prefix, p: nat, k: nat)
    requires WellFormed(space) && space.bits <= p <= 32
    ensures OnStride(p, Slot(space, p, k))
  {
    if k == 0 {
      SpaceIsAligned(space, p);
    } else {
      SlotAligned(space, p, k - 1);
      PowerAligned(HostBits(p), HostBits(p));
      AlignedSum(Slot(space, p, k - 1), Stride(p), HostBits(p));
    }
  }

  /** The slots end where the space ends. */
  lemma LastSlot(space: Prefix, p: nat)
    requires WellFormed(space) && space.bits <= p <= 32
    ensures Slot(space, p, Slots(space, p)) == space.addr + Size(space) == LastAddr(space) + 1
  {
    SlotValue(space, p, Slots(space, p));
    Pow2Add(p - space.bits, 32 - p);
    LastAddrIsLast(space);
  }

  lemma SlotIsBlock(space: Prefix, p: nat, k: nat)
    requires WellFormed(space) && space.bits <= p <= 32 && k < Slots(space, p)
    ensures Slot(space, p, k) < WORD_SIZE
    ensures var b := Prefix(Slot(space, p, k), p); WellFormed(b) && Inside(b, space)
  {
    SlotOrder(space, p, k, Slots(space, p));
    LastSlot(space, p);
    EndsInRange(space);
    SlotAligned(space, p, k);
  }

  lemma {:induction false} AlignedAddressIsSlot(space: Prefix, p: nat, x: nat) returns (i: nat)
    requires WellFormed(space) && space.bits <= p <= 32 && OnStride(p, x) && space.addr <= x
    ensures x == Slot(space, p, i)
    decreases x
  {
    if x == space.addr {
      i := 0;
    } else {
      SpaceIsAligned(space, p);
      AlignedApart(space.addr, x, HostBits(p));
      PowerAligned(HostBits(p), HostBits(p));
      AlignedSum(Stride(p), x, HostBits(p));
      var j := AlignedAddressIsSlot(space, p, x - Stride(p));
      i := j + 1;
    }
  }

  /** Every /p block inside the space sits on a slot. */
  lemma BlockIsSlot(space: Prefix, p: nat, b: Prefix) returns (i: nat)
    requires WellFormed(space) && space.bits <= p <= 32 && WellFormed(b) && b.bits == p && Inside(b, space)
    ensures b.addr == Slot(space, p, i) && i < Slots(space, p)
  {
    i := AlignedAddressIsSlot(space, p, b.addr);
    LastSlot(space, p);
    if i > Slots(space, p) {
      SlotOrder(space, p, Slots(space, p), i);
    }
  }

  /** One more round of the loop, from an occupied slot. */
  lemma Advance(space: Prefix, p: nat, taken: set<Prefix>, k: nat)
    requires Setting(space, p, taken) && Slot(space, p, k + 1) < WORD_SIZE
    requires k < Slots(space, p) && Slot(space, p, k) < WORD_SIZE
    requires LoopAfter(space, p, taken, k) == At(Slot(space, p, k))
    requires !IsFree(space, p, taken, Prefix(Slot(space, p, k), p))
    ensures LoopAfter(space, p, taken, k + 1) == At(Slot(space, p, k + 1))
  {
    SlotIsBlock(space, p, k);
    SlotAligned(space, p, k);
    SlotOrder(space, p, k, k + 1);
    StepInside(space, p, taken, Slot(space, p, k));
    NextCandidate(p, Slot(space, p, k));
  }

  /** As long as no free block is passed, the k-th candidate is the k-th slot. */
  lemma {:induction false} Reaches(space: Prefix, p: nat, taken: set<Prefix>, k: nat)
    requires Setting(space, p, taken) && k <= Slots(space, p) && Slot(space, p, k) < WORD_SIZE
    requires NoneBelow(space, p, taken, Slot(space, p, k))
    ensures LoopAfter(space, p, taken, k) == At(Slot(space, p, k))
  {
    if k == 0 {
      SpaceIsAligned(space, p);
    } else {
      SlotOrder(space, p, k - 1, k);
      NotFreeBelow(space, p, taken, Slot(space, p, k - 1), Slot(space, p, k));
      Reaches(space, p, taken, k - 1);
      Advance(space, p, taken, k - 1);
    }
  }

  lemma NotFreeBelow(space: Prefix, p: nat, taken: set<Prefix>, c: Word, x: int)
    requires NoneBelow(space, p, taken, x) && c < x
    ensures !IsFree(space, p, taken, Prefix(c, p))
    ensures NoneBelow(space, p, taken, c)
  {
  }

  lemma {:induction false} ReturnedStays(space: Prefix, p: nat, taken: set<Prefix>, n: nat, m: nat)
    requires 1 <= p <= 32 && n <= m && LoopAfter(space, p, taken, n).Returned?
    ensures LoopAfter(space, p, taken, m) == LoopAfter(space, p, taken, n)
  {
    if n < m {
      ReturnedStays(space, p, taken, n, m - 1);
    }
  }

  /** With a free block the search returns the lowest one. */
  lemma ReturnsLowest(space: Prefix, p: nat, taken: set<Prefix>, b: Prefix) returns (n: nat)
    requires Setting(space, p, taken) && IsLowestFree(space, p, taken, b)
    ensures LoopAfter(space, p, taken, n) == Returned(Some(b))
  {
    var k := BlockIsSlot(space, p, b);
    Reaches(space, p, taken, k);
    SlotAligned(space, p, k);
    StepInside(space, p, taken, b.addr);
    n := k + 1;
  }

  /** Without one, and with room above the space, it runs off the end after the last slot. */
  lemma ReturnsNothing(space: Prefix, p: nat, taken: set<Prefix>) returns (n: nat)
    requires Setting(space, p, taken) && !HasFree(space, p, taken) && LastAddr(space) < MAX_WORD
    ensures LoopAfter(space, p, taken, n) == Returned(None)
  {
    LastSlot(space, p);
    Reaches(space, p, taken, Slots(space, p));
    n := Slots(space, p) + 1;
  }

  /** In a full space ending at the last address the loop never stops at an aligned candidate. */
  lemma StepInFullTop(space: Prefix, p: nat, taken: set<Prefix>, c: Word)
    requires Setting(space, p, taken) && !HasFree(space, p, taken) && LastAddr(space) == MAX_WORD
    requires OnStride(p, c)
    ensures LoopStep(space, p, taken, At(c)) == At(Add(c, StepSize(p)))
  {
    LastAddrIsLast(space);
    if c < space.addr {
      StepBefore(space, p, taken, c);
    } else {
      StepInside(space, p, taken, c);
    }
  }

  /** The k-th slot on a uint32. */
  function WrappedSlot(space: Prefix, p: nat, k: nat): Word {
    Slot(space, p, k) % WORD_SIZE
  }

  lemma {:induction false} NextWrappedSlot(space: Prefix, p: nat, k: nat)
    requires WellFormed(space) && space.bits <= p <= 32
    ensures OnStride(p, WrappedSlot(space, p, k))
    ensures WrappedSlot(space, p, k + 1) == Add(WrappedSlot(space, p, k), StepSize(p))
  {
    if k == 0 {
      SpaceIsAligned(space, p);
      DivModUnique(space.addr, WORD_SIZE, 0, space.addr);
    } else {
      NextWrappedSlot(space, p, k - 1);
      NextCandidate(p, WrappedSlot(space, p, k - 1));
    }
    NextCandidate(p, WrappedSlot(space, p, k));
    ModStep(Slot(space, p, k), Stride(p), WORD_SIZE);
  }

  /** Without one, in a space ending at the last address, the n-th candidate is start + n * step
      modulo 2^32: the loop wraps round and never leaves its guard. */
  lemma {:induction false} WrapsForever(space: Prefix, p: nat, taken: set<Prefix>, n: nat)
    requires Setting(space, p, taken) && !HasFree(space, p, taken) && LastAddr(space) == MAX_WORD
    ensures LoopAfter(space, p, taken, n) == At(WrappedSlot(space, p, n))
  {
    if n == 0 {
      SpaceIsAligned(space, p);
      DivModUnique(space.addr, WORD_SIZE, 0, space.addr);
    } else {
      WrapsForever(space, p, taken, n - 1);
      NextWrappedSlot(space, p, n - 1);
      StepInFullTop(space, p, taken, WrappedSlot(space, p, n - 1));
    }
  }

  lemma ModStep(x: nat, s: nat, w: nat)
    requires 0 < s && 0 < w && x % w + s <= w
    ensures (x + s) % w == if x % w + s == w then 0 else x % w + s
  {
    var q := x / w;
    assert x == w * q + x % w;
    if x % w + s == w {
      assert w * (q + 1) == w * q + w;
      DivModUnique(x + s, w, q + 1, 0);
    } else {
      DivModUnique(x + s, w, q, x % w + s);
    }
  }

  /** After 2^p rounds the wrapped loop is back where it was. */
  lemma WrapPeriod(space: Prefix, p: nat, taken: set<Prefix>, n: nat, m: nat)
    requires Setting(space, p, taken) && !HasFree(space, p, taken) && LastAddr(space) == MAX_WORD
    requires m == n + Pow2(p)
    ensures LoopAfter(space, p, taken, n).At?
    ensures LoopAfter(space, p, taken, m) == LoopAfter(space, p, taken, n)
  {
    SlotPeriod(space, p, n);
    assert LoopAfter(space, p, taken, n) == At(WrappedSlot(space, p, n)) by {
      WrapsForever(space, p, taken, n);
    }
    assert LoopAfter(space, p, taken, m) == At(WrappedSlot(space, p, m)) by {
      WrapsForever(space, p, taken, m);
    }
  }

  lemma SlotShift(space: Prefix, p: nat, n: nat)
    requires 1 <= p <= 32
    ensures Slot(space, p, n + Pow2(p)) == Slot(space, p, n) + WORD_SIZE
  {
    var s, t := Stride(p), Pow2(p);
    SlotValue(space, p, n);
    SlotValue(space, p, n + t);
    SizeBounds(Prefix(0, p));
    assert Size(Prefix(0, p)) == s;
    Distribute(n, t, s);
    assert t * s == s * t;
  }

  lemma SlotPeriod(space: Prefix, p: nat, n: nat)
    requires 1 <= p <= 32
    ensures WrappedSlot(space, p, n + Pow2(p)) == WrappedSlot(space, p, n)
  {
    SlotShift(space, p, n);
    AddWord(Slot(space, p, n));
  }

  lemma AddWord(x: nat)
    ensures (x + WORD_SIZE) % WORD_SIZE == x % WORD_SIZE
  {
    var q := x / WORD_SIZE;
    DivModUnique(x + WORD_SIZE, WORD_SIZE, q + 1, x % WORD_SIZE);
  }

  /** When the loop returns at all, it returns what Search says. */
  lemma ReturnIsSearch(space: Prefix, p: nat, taken: set<Prefix>) returns (k: nat)
    requires Setting(space, p, taken) && !Search(space, p, taken).Diverges?
    ensures LoopAfter(space, p, taken, k)
         == Returned(if HasFree(space, p, taken) then Some(Search(space, p, taken).block) else None)
  {
    LastAddrIsLast(space);
    EndsInRange(space);
    if HasFree(space, p, taken) {
      k := ReturnsLowest(space, p, taken, Search(space, p, taken).block);
    } else {
      k := ReturnsNothing(space, p, taken);
    }
  }

  /** The search loop returns if and only if a free block exists or the space ends below
      2^32 - 1; it returns the lowest free block or nothing; otherwise its candidates
      repeat with period 2^p and the loop never exits. */
  lemma SearchLoopOutcome(space: Prefix, p: nat, taken: set<Prefix>)
    requires Setting(space, p, taken)
    ensures (exists n :: LoopAfter(space, p, taken, n).Returned?)
       <==> HasFree(space, p, taken) || LastAddr(space) < MAX_WORD
    ensures forall n :: LoopAfter(space, p, taken, n).Returned?
              ==> LoopAfter(space, p, taken, n).block
                  == (if HasFree(space, p, taken) then Some(Search(space, p, taken).block) else None)
    ensures !HasFree(space, p, taken) && LastAddr(space) == MAX_WORD ==>
              forall n: nat :: LoopAfter(space, p, taken, n + Pow2(p)) == LoopAfter(space, p, taken, n)
  {
    if Search(space, p, taken).Diverges? {
      forall n: nat
        ensures LoopAfter(space, p, taken, n).At?
        ensures LoopAfter(space, p, taken, n + Pow2(p)) == LoopAfter(space, p, taken, n)
      {
        WrapPeriod(space, p, taken, n, n + Pow2(p));
      }
    } else {
      var k := ReturnIsSearch(space, p, taken);
      forall n | LoopAfter(space, p, taken, n).Returned?
        ensures LoopAfter(space, p, taken, n) == LoopAfter(space, p, taken, k)
      {
        SameReturn(space, p, taken, k, n);
      }
    }
  }

  lemma SameReturn(space: Prefix, p: nat, taken: set<Prefix>, k: nat, n: nat)
    requires 1 <= p <= 32 && LoopAfter(space, p, taken, k).Returned? && LoopAfter(space, p, taken, n).Returned?
    ensures LoopAfter(space, p, taken, n) == LoopAfter(space, p, taken, k)
  {
    if n <= k {
      ReturnedStays(space, p, taken, n, k);
    } else {
      ReturnedStays(space, p, taken, k, n);
    }
  }

  /** Concretely: 255.255.255.255/32 with itself taken is searched forever. */
  lemma FullTopBlockNeverReturns(n: nat)
    ensures var top := Prefix(MAX_WORD, 32);
            WellFormed(top) && !LoopAfter(top, 32, {top}, n).Returned?
  {
    var top := Prefix(MAX_WORD, 32);
    assert Pow2(0) == 1;
    LastAddrIsLast(top);
    assert top in {top};
    assert forall b :: IsFree(top, 32, {top}, b) ==> Disjoint(b, top);
    SearchLoopOutcome(top, 32, {top});
  }

  // ---- the loop itself ---------------------------------------------------------------

  method FindFreeInRange(space: Prefix, p: nat, siblings: seq<Prefix>) returns (r: Option<Prefix>)
    requires WellFormed(space) && 1 <= p <= 32 && AllWellFormed(ToSet(siblings))
    // where the loop of the original does not return, there is no result to specify
    requires space.bits <= p ==> !Search(space, p, ToSet(siblings)).Diverges?
    ensures p < space.bits ==> r == None
    ensures p >= space.bits && r.Some? ==> IsLowestFree(space, p, ToSet(siblings), r.value)
    ensures p >= space.bits && r.None? ==> !HasFree(space, p, ToSet(siblings))
    ensures p >= space.bits ==> exists n :: LoopAfter(space, p, ToSet(siblings), n) == Returned(r)
  {
    if p < space.bits {
      return None;
    }
    ghost var taken := ToSet(siblings);
    ghost var target := match Search(space, p, taken)
      case Found(b) => b.addr
      case _ => LastAddr(space) + 1;
    LastAddrIsLast(space);
    EndsInRange(space);
    SpaceIsAligned(space, p);
    LastSlot(space, p);

    var start := space.addr;
    var end := LastAddr(space);
    var step := StepSize(p);
    var candidate := And(start, Mask(p));
    if candidate < start {
      candidate := Add(candidate, step);
    }

    ghost var n := 0;
    while candidate <= end
      invariant n <= Slots(space, p) && candidate == Slot(space, p, n) <= target
      invariant LoopAfter(space, p, taken, n) == At(candidate)
      invariant NoneBelow(space, p, taken, candidate)
      decreases target - candidate
    {
      BodyAtSlot(space, p, taken, n);
      if Contains(space, candidate) {
        var block := Masked(Prefix(candidate, p));
        var overlaps := HitsAny(block, siblings);
        if !overlaps {
          assert LoopAfter(space, p, taken, n + 1) == Returned(Some(block));
          return Some(block);
        }
      }
      PassesOver(space, p, taken, n, target);
      n := n + 1;
      candidate := Add(candidate, step);
    }
    assert LoopAfter(space, p, taken, n + 1) == Returned(None);
    return None;
  }

  /** The tests of the loop body at the k-th slot. */
  lemma BodyAtSlot(space: Prefix, p: nat, taken: set<Prefix>, k: nat)
    requires Setting(space, p, taken) && Slot(space, p, k) <= LastAddr(space)
    ensures Contains(space, Slot(space, p, k))
    ensures Masked(Prefix(Slot(space, p, k), p)) == Prefix(Slot(space, p, k), p)
    ensures HitsSibling(Prefix(Slot(space, p, k), p), taken)
       <==> !IsFree(space, p, taken, Prefix(Slot(space, p, k), p))
  {
    LastAddrIsLast(space);
    SlotAligned(space, p, k);
    StepInside(space, p, taken, Slot(space, p, k));
    ContainsIsMembership(space, Slot(space, p, k));
    MaskedIsWellFormed(Prefix(Slot(space, p, k), p));
  }

  /** An occupied slot is left behind by one stride, without wrapping, and still not past the target. */
  lemma PassesOver(space: Prefix, p: nat, taken: set<Prefix>, k: nat, target: nat)
    requires Setting(space, p, taken) && k <= Slots(space, p) && Slot(space, p, k) <= LastAddr(space)
    requires !IsFree(space, p, taken, Prefix(Slot(space, p, k), p))
    requires NoneBelow(space, p, taken, Slot(space, p, k))
    requires match Search(space, p, taken)
             case Found(b) => target == b.addr
             case Exhausted => target == LastAddr(space) + 1
             case Diverges => false
    ensures k < Slots(space, p) && Slot(space, p, k + 1) <= target
    ensures Add(Slot(space, p, k), StepSize(p)) == Slot(space, p, k + 1)
    ensures NoneBelow(space, p, taken, Slot(space, p, k + 1))
  {
    LastSlot(space, p);
    SlotOrder(space, p, k, k + 1);
    forall b | IsFree(space, p, taken, b)
      ensures Slot(space, p, k + 1) <= b.addr
    {
      var i := BlockIsSlot(space, p, b);
      FurtherSlot(space, p, k, i);
    }
    if Search(space, p, taken).Exhausted? {
      FurtherSlot(space, p, k, Slots(space, p));
    }
    SlotAligned(space, p, k);
    NextCandidate(p, Slot(space, p, k));
  }

  lemma FurtherSlot(space: Prefix, p: nat, k: nat, i: nat)
    requires Slot(space, p, k) < Slot(space, p, i)
    ensures k < i && Slot(space, p, k + 1) <= Slot(space, p, i)
  {
    if i < k {
      SlotOrder(space, p, i, k);
    }
    SlotOrder(space, p, k, k + 1);
    if k + 1 < i {
      SlotOrder(space, p, k + 1, i);
    }
  }

  method HitsAny(block: Prefix, siblings: seq<Prefix>) returns (overlaps: bool)
    ensures overlaps <==> HitsSibling(block, ToSet(siblings))
  {
    overlaps := false;
    for i := 0 to |siblings|
      invariant forall j :: 0 <= j < i ==> !Overlaps(block, siblings[j])
    {
      if Overlaps(block, siblings[i]) {
        assert siblings[i] in ToSet(siblings);
        return true;
      }
    }
  }

  ghost function Allocation(parent: Prefix, prefixLen: int, taken: set<Prefix>): Option<Result<Prefix, IpError>> {
    if prefixLen < 1 || prefixLen > 32 then Some(Err(InvalidPrefix))
    else if prefixLen < parent.bits then Some(Err(PrefixTooBroad))
    else match Search(parent, prefixLen, taken)
      case Found(b) => Some(Ok(b))
      case Exhausted => Some(Err(NoFreeBlock))
      case Diverges => None
  }

  method FindFreeIPv4Block(parent: Prefix, prefixLen: int, siblings: seq<Prefix>)
    returns (r: Result<Prefix, IpError>)
    requires WellFormed(parent) && AllWellFormed(ToSet(siblings))
    requires Allocation(parent, prefixLen, ToSet(siblings)) != None
    ensures Allocation(parent, prefixLen, ToSet(siblings)) == Some(r)
  {
    if prefixLen < 1 || prefixLen > 32 {
      return Err(InvalidPrefix);
    }
    if prefixLen < parent.bits {
      return Err(PrefixTooBroad);
    }
    var block := FindFreeInRange(parent, prefixLen, siblings);
    if block.Some? {
      LowestFreeUnique(parent, prefixLen, ToSet(siblings), block.value, Search(parent, prefixLen, ToSet(siblings)).block);
      return Ok(block.value);
    }
    return Err(NoFreeBlock);
  }

  lemma LowestFreeUnique(space: Prefix, p: nat, taken: set<Prefix>, b: Prefix, c: Prefix)
    requires IsLowestFree(space, p, taken, b) && IsLowestFree(space, p, taken, c)
    ensures b == c
  {
  }
}
