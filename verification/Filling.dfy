/** Automatic addresses over runs of calls: when a create succeeds, in which order a subnet
    fills up, and what a delete gives back.
 */
module Filling {
  import opened Common
  import opened Words
  import opened Blocks
  import opened IpUtil
  import opened Capacity
  import opened Tables
  import opened Service

  /** The network a create under this parent would write into. */
  ghost function TargetNetwork(db: Db, parent: Parent): Uuid
    requires ParentExists(db, parent)
  {
    if parent.kind == NetworkKind then parent.uuid else db.subnets[parent.uuid].networkUuid
  }

  /** The block meets no child of the parent and, under a subnet, lies inside it. */
  ghost predicate Admissible(db: Db, parent: Parent, b: Prefix)
    requires ParentExists(db, parent)
  {
    WellFormed(b)
    && (forall c :: c in ChildrenOf(db.subnets, parent) ==>
          Addresses(b) !! Addresses(Block(db.subnets[c].subnet)))
    && (parent.kind == SubnetKind ==>
          Addresses(b) <= Addresses(Block(db.subnets[parent.uuid].subnet)))
  }

  lemma TakenMeansChild(db: Db, parent: Parent, b: Prefix)
    requires Inv(db)
    ensures (forall t :: t in SiblingBlocks(db.subnets, parent) ==> Addresses(b) !! Addresses(t))
       <==> (forall c :: c in ChildrenOf(db.subnets, parent) ==>
               Addresses(b) !! Addresses(Block(db.subnets[c].subnet)))
  {
    forall t | t in SiblingBlocks(db.subnets, parent)
      ensures exists c :: c in ChildrenOf(db.subnets, parent) && t == Block(db.subnets[c].subnet)
    {
      var c := TakenIsChild(db.subnets, parent, t);
    }
    forall c | c in ChildrenOf(db.subnets, parent)
      ensures Block(db.subnets[c].subnet) in SiblingBlocks(db.subnets, parent)
    {
      ChildBlockIsMasked(db.subnets, parent, c);
    }
  }

  lemma InsideIsLonger(b: Prefix, p: Prefix)
    requires WellFormed(b) && WellFormed(p) && Addresses(b) <= Addresses(p)
    ensures p.bits <= b.bits
  {
    SetForms(b, p);
    if b.bits < p.bits {
      NestedOrDisjoint(b, p);
    }
  }

  lemma VerdictIsAdmissible(db: Db, parent: Parent, ctx: Context, b: Prefix)
    requires Inv(db) && ParentExists(db, parent) && ContextFits(db.subnets, ctx, parent) && WellFormed(b)
    ensures Verdict(b, ctx.parentPrefix, SiblingBlocks(db.subnets, parent)) == None
       <==> Admissible(db, parent, b)
  {
    assert Clear(b, SiblingBlocks(db.subnets, parent))
      <==> (forall c :: c in ChildrenOf(db.subnets, parent) ==>
              Addresses(b) !! Addresses(Block(db.subnets[c].subnet))) by {
      TakenMeansChild(db, parent, b);
    }
    VerdictParts(b, ctx.parentPrefix, SiblingBlocks(db.subnets, parent));
    if parent.kind == SubnetKind {
      assert ctx.parentPrefix == Some(Block(db.subnets[parent.uuid].subnet));
    }
  }

  ghost predicate Clear(b: Prefix, taken: set<Prefix>) {
    forall t :: t in taken ==> Addresses(b) !! Addresses(t)
  }

  lemma VerdictParts(b: Prefix, parent: Option<Prefix>, taken: set<Prefix>)
    requires WellFormed(b) && (parent.Some? ==> WellFormed(parent.value))
    ensures Verdict(b, parent, taken) == None
       <==> Clear(b, taken) && (parent.Some? ==> Addresses(b) <= Addresses(parent.value))
  {
    if parent.Some? && Addresses(b) <= Addresses(parent.value) {
      InsideIsLonger(b, parent.value);
    }
  }

  /** The conditions of every create, apart from the address. */
  ghost predicate Creatable(db: Db, input: CreateInput, id: Uuid) {
    CreateRefusal(input) == None && ParentExists(db, input.parent) && id !in db.subnets
    && !NameTaken(db.subnets, TargetNetwork(db, input.parent), Trim(input.name))
  }

  lemma NetworkIsLive(db: Db, parent: Parent)
    requires Inv(db) && ParentExists(db, parent)
    ensures TargetNetwork(db, parent) in db.networks
    ensures NetworkOfParent(db.subnets, parent) == Some(TargetNetwork(db, parent))
    ensures ResolveParentContext(db, parent).Done?
    ensures ResolveParentContext(db, parent).value.networkUuid == TargetNetwork(db, parent)
    ensures ContextFits(db.subnets, ResolveParentContext(db, parent).value, parent)
  {
    ContextIsRight(db, parent);
  }

  /** The result of a create that only its block can fail. */
  ghost function Decide(db: Db, ctx: Context, input: CreateInput, id: Uuid): Outcome<Subnet> {
    var taken := SiblingBlocks(db.subnets, input.parent);
    match Candidate(ctx, input, taken)
    case None => Outcome(db, Reply.NeverReturns)
    case Some(Err(e)) => Outcome(db, Failed(e))
    case Some(Ok(b)) =>
      match Verdict(b, ctx.parentPrefix, taken)
      case Some(e) => Outcome(db, Failed(ToError(e)))
      case None =>
        Outcome(db.(subnets := db.subnets[id := Row(ctx.networkUuid, NewSubnet(input, b))]), Done(NewSubnet(input, b)))
  }

  lemma CommitDecides(db: Db, ctx: Context, input: CreateInput, id: Uuid)
    requires ParentExists(db, input.parent) && SiblingsParse(db.subnets, input.parent) && id !in db.subnets
    requires NetworkOfParent(db.subnets, input.parent) == Some(ctx.networkUuid) && ctx.networkUuid in db.networks
    requires !NameTaken(db.subnets, ctx.networkUuid, Trim(input.name))
    ensures CommitCreate(db, ctx, input, id) == Decide(db, ctx, input, id)
  {
  }

  lemma CreatableCommits(db: Db, input: CreateInput, id: Uuid)
    requires Inv(db) && Creatable(db, input, id)
    ensures ResolveParentContext(db, input.parent).Done?
    ensures CreateSubnet(db, input, id) == Decide(db, ResolveParentContext(db, input.parent).value, input, id)
  {
    NetworkIsLive(db, input.parent);
    SiblingBlocksAreValid(db.subnets, input.parent);
    CommitDecides(db, ResolveParentContext(db, input.parent).value, input, id);
  }

  /** A create with an address succeeds exactly when the named block is admissible: clear of the
      siblings' addresses and, under a subnet, within the parent's. */
  lemma ExplicitCreateSucceedsIff(db: Db, input: CreateInput, id: Uuid, a: Word)
    requires Inv(db) && Creatable(db, input, id) && input.address == Text(IPv4(a))
    ensures CreateSubnet(db, input, id).reply.Done?
       <==> 1 <= input.prefixLen <= 32 && Admissible(db, input.parent, Masked(Prefix(a, input.prefixLen)))
    ensures CreateSubnet(db, input, id).reply.Done? ==>
              Block(CreateSubnet(db, input, id).reply.value) == Masked(Prefix(a, input.prefixLen))
  {
    CreatableCommits(db, input, id);
    NetworkIsLive(db, input.parent);
    if 1 <= input.prefixLen <= 32 {
      var b := Masked(Prefix(a, input.prefixLen));
      MaskedIsWellFormed(Prefix(a, input.prefixLen));
      VerdictIsAdmissible(db, input.parent, ResolveParentContext(db, input.parent).value, b);
    }
  }

  /** A request for an automatic address under an existing subnet that only the address can fail. */
  ghost predicate AutoRequest(db: Db, input: CreateInput, id: Uuid) {
    Creatable(db, input, id) && input.address == Blank && input.parent.kind == SubnetKind
    && db.subnets[input.parent.uuid].subnet.prefix <= input.prefixLen <= 32
  }

  /** Such a request creates the lowest free block, fails for want of one, or never returns. */
  lemma AutoCreateFollowsSearch(db: Db, input: CreateInput, id: Uuid)
    requires Inv(db) && AutoRequest(db, input, id)
    ensures var p := db.subnets[input.parent.uuid];
            var out := CreateSubnet(db, input, id);
            match Search(Block(p.subnet), input.prefixLen, SiblingBlocks(db.subnets, input.parent))
            case Found(b) =>
              out == Outcome(db.(subnets := db.subnets[id := Row(p.networkUuid, NewSubnet(input, b))]),
                             Done(NewSubnet(input, b)))
            case Exhausted => out == Outcome(db, Failed(NoFreeAddress))
            case Diverges => out == Outcome(db, Reply.NeverReturns)
  {
    CreatableCommits(db, input, id);
    NetworkIsLive(db, input.parent);
    var parent := Block(db.subnets[input.parent.uuid].subnet);
    var taken := SiblingBlocks(db.subnets, input.parent);
    assert RowFits(db.subnets, input.parent.uuid);
    if Search(parent, input.prefixLen, taken).Found? {
      AllocationPassesValidation(parent, input.prefixLen, taken);
    }
  }

  /** The parent is full for this length and ends at 255.255.255.255. */
  ghost predicate FullAtTheTop(db: Db, input: CreateInput)
    requires input.parent.uuid in db.subnets
  {
    var space := Block(db.subnets[input.parent.uuid].subnet);
    space.bits <= input.prefixLen <= 32 && LastAddr(space) == MAX_WORD
    && !HasFree(space, input.prefixLen, SiblingBlocks(db.subnets, input.parent))
  }

  lemma CandidateDiverges(db: Db, ctx: Context, input: CreateInput)
    requires AllFit(db.subnets) && ParentExists(db, input.parent) && ContextFits(db.subnets, ctx, input.parent)
    ensures Candidate(ctx, input, SiblingBlocks(db.subnets, input.parent)) == None
       <==> input.address == Blank && input.parent.kind == SubnetKind && FullAtTheTop(db, input)
  {
    if input.parent.kind == SubnetKind {
      assert RowFits(db.subnets, input.parent.uuid);
    }
  }

  lemma CommitDiverges(db: Db, ctx: Context, input: CreateInput, id: Uuid)
    requires ParentExists(db, input.parent) && SiblingsParse(db.subnets, input.parent)
    ensures CommitCreate(db, ctx, input, id).reply.NeverReturns?
       <==> !NameTaken(db.subnets, ctx.networkUuid, Trim(input.name))
            && Candidate(ctx, input, SiblingBlocks(db.subnets, input.parent)) == None
  {
  }

  /** A create never returns exactly for a well-formed request for an automatic address, under a
      free name, in an existing subnet that is full and ends at 255.255.255.255. */
  lemma CreateNeverReturnsIff(db: Db, input: CreateInput, id: Uuid)
    requires Inv(db)
    ensures CreateSubnet(db, input, id).reply.NeverReturns?
       <==> CreateRefusal(input) == None && input.address == Blank && input.parent.kind == SubnetKind
            && ParentExists(db, input.parent)
            && !NameTaken(db.subnets, TargetNetwork(db, input.parent), Trim(input.name))
            && FullAtTheTop(db, input)
  {
    ContextIsRight(db, input.parent);
    if CreateRefusal(input) == None && ParentExists(db, input.parent) {
      NetworkIsLive(db, input.parent);
      SiblingBlocksAreValid(db.subnets, input.parent);
      var ctx := ResolveParentContext(db, input.parent).value;
      CandidateDiverges(db, ctx, input);
      CommitDiverges(db, ctx, input, id);
      assert CreateSubnet(db, input, id) == CommitCreate(db, ctx, input, id);
    }
  }

  // ---- filling an empty subnet -------------------------------------------------------

  function AutoInput(name: string, parent: Uuid, p: nat): CreateInput {
    CreateInput(name, "", p, Blank, None, Parent(SubnetKind, parent))
  }

  function AutoCalls(parent: Uuid, p: nat, names: seq<string>, ids: seq<Uuid>): seq<Call>
    requires |names| == |ids|
  {
    seq(|names|, i requires 0 <= i < |names| => CallCreate(AutoInput(names[i], parent, p), ids[i]))
  }

  /** Names and uuids such that each create can only fail for want of an address. */
  ghost predicate FreshFor(db: Db, parent: Uuid, names: seq<string>, ids: seq<Uuid>) {
    |names| == |ids| && parent != NIL && parent in db.subnets
    && (forall i :: 0 <= i < |names| ==>
          Trim(names[i]) != "" && !NameTaken(db.subnets, db.subnets[parent].networkUuid, Trim(names[i])))
    && (forall i :: 0 <= i < |ids| ==> ids[i] !in db.subnets)
    && (forall i, j :: 0 <= i < j < |names| ==> Trim(names[i]) != Trim(names[j]) && ids[i] != ids[j])
  }

  /** After the calls: the listed rows, with slot addresses, are the parent's children, and
      nothing else has changed. */
  ghost predicate Filled(db: Db, after: Db, parent: Uuid, p: nat, names: seq<string>, ids: seq<Uuid>)
    requires parent in db.subnets && |names| == |ids|
  {
    after.networks == db.networks
    && after.subnets.Keys == db.subnets.Keys + (set x | x in ids)
    && (forall c :: c in db.subnets ==> after.subnets[c] == db.subnets[c])
    && (forall i :: 0 <= i < |ids| ==> FilledRow(db, after, parent, p, names[i], ids[i], i))
  }

  ghost predicate FilledRow(db: Db, after: Db, parent: Uuid, p: nat, name: string, id: Uuid, i: nat)
    requires parent in db.subnets
  {
    id in after.subnets
    && after.subnets[id].networkUuid == db.subnets[parent].networkUuid
    && after.subnets[id].subnet.parent == Parent(SubnetKind, parent)
    && after.subnets[id].subnet.name == Trim(name)
    && after.subnets[id].subnet.prefix == p
    && after.subnets[id].subnet.address == Slot(Block(db.subnets[parent].subnet), p, i)
  }

  lemma FilledChildren(db: Db, after: Db, parent: Uuid, p: nat, names: seq<string>, ids: seq<Uuid>, c: Uuid)
    requires parent in db.subnets && |names| == |ids|
    requires ChildrenOf(db.subnets, Parent(SubnetKind, parent)) == {}
    requires Filled(db, after, parent, p, names, ids)
    ensures c in ChildrenOf(after.subnets, Parent(SubnetKind, parent)) <==> c in ids
  {
    if c in ids {
      var i :| 0 <= i < |ids| && ids[i] == c;
      assert FilledRow(db, after, parent, p, names[i], ids[i], i);
    } else if c in db.subnets {
      assert c !in ChildrenOf(db.subnets, Parent(SubnetKind, parent));
    }
  }

  lemma FilledTaken(db: Db, after: Db, parent: Uuid, p: nat, names: seq<string>, ids: seq<Uuid>)
    requires AllFit(after.subnets) && parent in db.subnets && |names| == |ids|
    requires ChildrenOf(db.subnets, Parent(SubnetKind, parent)) == {}
    requires Filled(db, after, parent, p, names, ids)
    ensures FirstSlots(Block(db.subnets[parent].subnet), p, |ids|,
                       SiblingBlocks(after.subnets, Parent(SubnetKind, parent)))
  {
    var space := Block(db.subnets[parent].subnet);
    forall b: Prefix
      ensures b in SiblingBlocks(after.subnets, Parent(SubnetKind, parent)) <==> IsSlotBelow(space, p, |ids|, b)
    {
      TakenIsSlot(db, after, parent, p, names, ids, b);
    }
  }

  lemma TakenIsSlot(db: Db, after: Db, parent: Uuid, p: nat, names: seq<string>, ids: seq<Uuid>, b: Prefix)
    requires AllFit(after.subnets) && parent in db.subnets && |names| == |ids|
    requires ChildrenOf(db.subnets, Parent(SubnetKind, parent)) == {}
    requires Filled(db, after, parent, p, names, ids)
    ensures b in SiblingBlocks(after.subnets, Parent(SubnetKind, parent))
       <==> IsSlotBelow(Block(db.subnets[parent].subnet), p, |ids|, b)
  {
    var kids := Parent(SubnetKind, parent);
    var space := Block(db.subnets[parent].subnet);
    if b in SiblingBlocks(after.subnets, kids) {
      var c := TakenIsChild(after.subnets, kids, b);
      FilledChildren(db, after, parent, p, names, ids, c);
      var i :| 0 <= i < |ids| && ids[i] == c;
      assert FilledRow(db, after, parent, p, names[i], ids[i], i);
      assert b.addr == Slot(space, p, i);
    }
    if IsSlotBelow(space, p, |ids|, b) {
      var i: nat :| i < |ids| && b.addr == Slot(space, p, i);
      FilledChildren(db, after, parent, p, names, ids, ids[i]);
      assert FilledRow(db, after, parent, p, names[i], ids[i], i);
      ChildBlockIsMasked(after.subnets, kids, ids[i]);
      assert Block(after.subnets[ids[i]].subnet) == b;
    }
  }

  lemma NextNameIsFree(db: Db, after: Db, parent: Uuid, p: nat, names: seq<string>, ids: seq<Uuid>, name: string)
    requires parent in db.subnets && |names| == |ids| && Filled(db, after, parent, p, names, ids)
    requires !NameTaken(db.subnets, db.subnets[parent].networkUuid, name)
    requires forall i :: 0 <= i < |names| ==> Trim(names[i]) != name
    ensures !NameTaken(after.subnets, db.subnets[parent].networkUuid, name)
  {
    forall c | c in after.subnets && after.subnets[c].networkUuid == db.subnets[parent].networkUuid
      ensures after.subnets[c].subnet.name != name
    {
      if c !in db.subnets {
        var i :| 0 <= i < |ids| && ids[i] == c;
        assert FilledRow(db, after, parent, p, names[i], ids[i], i);
      }
    }
  }

  /** Creating /p children one after another in an empty /b subnet yields start + k * 2^(32-p) in
      order, as long as there are no more than 2^(p-b) of them. */
  lemma {:induction false} FillsInOrder(db: Db, parent: Uuid, p: nat, names: seq<string>, ids: seq<Uuid>)
    requires Inv(db) && FreshFor(db, parent, names, ids)
    requires db.subnets[parent].subnet.prefix <= p <= 32
    requires ChildrenOf(db.subnets, Parent(SubnetKind, parent)) == {}
    requires |names| <= Slots(Block(db.subnets[parent].subnet), p)
    ensures Filled(db, Run(db, AutoCalls(parent, p, names, ids)), parent, p, names, ids)
    decreases |names|
  {
    if |names| == 0 {
      assert AutoCalls(parent, p, names, ids) == [];
    } else {
      var k := |names| - 1;
      FreshPrefix(db, parent, names, ids, k);
      FillsInOrder(db, parent, p, names[..k], ids[..k]);
      RunKeepsInv(db, AutoCalls(parent, p, names[..k], ids[..k]));
      LastAutoCall(db, parent, p, names, ids);
      FillStep(db, Run(db, AutoCalls(parent, p, names[..k], ids[..k])), parent, p, names, ids, k);
    }
  }

  lemma LastAutoCall(db: Db, parent: Uuid, p: nat, names: seq<string>, ids: seq<Uuid>)
    requires |names| == |ids| > 0
    ensures var k := |names| - 1;
            Run(db, AutoCalls(parent, p, names, ids))
            == CreateSubnet(Run(db, AutoCalls(parent, p, names[..k], ids[..k])), AutoInput(names[k], parent, p), ids[k]).db
  {
    var k := |names| - 1;
    var calls := AutoCalls(parent, p, names, ids);
    assert calls[..k] == AutoCalls(parent, p, names[..k], ids[..k]);
    assert calls[k] == CallCreate(AutoInput(names[k], parent, p), ids[k]);
  }

  lemma FreshPrefix(db: Db, parent: Uuid, names: seq<string>, ids: seq<Uuid>, k: nat)
    requires FreshFor(db, parent, names, ids) && k <= |names|
    ensures FreshFor(db, parent, names[..k], ids[..k])
    ensures k < |names| ==> ids[k] !in ids[..k] && forall i :: 0 <= i < k ==> Trim(names[..k][i]) != Trim(names[k])
  {
  }

  lemma StepCreates(db: Db, mid: Db, parent: Uuid, p: nat, names: seq<string>, ids: seq<Uuid>, k: nat)
    requires Inv(db) && Inv(mid) && FreshFor(db, parent, names, ids) && k < |names|
    requires Filled(db, mid, parent, p, names[..k], ids[..k])
    requires db.subnets[parent].subnet.prefix <= p <= 32
    requires ChildrenOf(db.subnets, Parent(SubnetKind, parent)) == {}
    requires k < Slots(Block(db.subnets[parent].subnet), p)
    ensures Slot(Block(db.subnets[parent].subnet), p, k) < WORD_SIZE
    ensures var input := AutoInput(names[k], parent, p);
            var b := Prefix(Slot(Block(db.subnets[parent].subnet), p, k), p);
            CreateSubnet(mid, input, ids[k]).db
            == mid.(subnets := mid.subnets[ids[k] := Row(db.subnets[parent].networkUuid, NewSubnet(input, b))])
  {
    var input := AutoInput(names[k], parent, p);
    FreshPrefix(db, parent, names, ids, k);
    NextNameIsFree(db, mid, parent, p, names[..k], ids[..k], Trim(names[k]));
    FilledTaken(db, mid, parent, p, names[..k], ids[..k]);
    assert RowFits(db.subnets, parent);
    NextSlot(Block(db.subnets[parent].subnet), p, k, SiblingBlocks(mid.subnets, input.parent));
    AutoCreateFollowsSearch(mid, input, ids[k]);
  }

  lemma FillStep(db: Db, mid: Db, parent: Uuid, p: nat, names: seq<string>, ids: seq<Uuid>, k: nat)
    requires Inv(db) && Inv(mid) && FreshFor(db, parent, names, ids) && k + 1 == |names|
    requires Filled(db, mid, parent, p, names[..k], ids[..k])
    requires db.subnets[parent].subnet.prefix <= p <= 32
    requires ChildrenOf(db.subnets, Parent(SubnetKind, parent)) == {}
    requires k < Slots(Block(db.subnets[parent].subnet), p)
    ensures Filled(db, CreateSubnet(mid, AutoInput(names[k], parent, p), ids[k]).db, parent, p, names, ids)
  {
    StepCreates(db, mid, parent, p, names, ids, k);
    var b := Prefix(Slot(Block(db.subnets[parent].subnet), p, k), p);
    var row := Row(db.subnets[parent].networkUuid, NewSubnet(AutoInput(names[k], parent, p), b));
    FilledExtends(db, mid, parent, p, names, ids, k, row);
  }

  lemma FilledExtends(db: Db, mid: Db, parent: Uuid, p: nat, names: seq<string>, ids: seq<Uuid>, k: nat, row: Row)
    requires parent in db.subnets && |ids| == |names| == k + 1
    requires Filled(db, mid, parent, p, names[..k], ids[..k])
    requires ids[k] !in db.subnets && ids[k] !in ids[..k]
    requires row.networkUuid == db.subnets[parent].networkUuid
    requires row.subnet.parent == Parent(SubnetKind, parent) && row.subnet.name == Trim(names[k])
    requires row.subnet.prefix == p && row.subnet.address == Slot(Block(db.subnets[parent].subnet), p, k)
    ensures Filled(db, mid.(subnets := mid.subnets[ids[k] := row]), parent, p, names, ids)
  {
    var after := mid.(subnets := mid.subnets[ids[k] := row]);
    assert ids == ids[..k] + [ids[k]];
    forall i | 0 <= i < |ids|
      ensures FilledRow(db, after, parent, p, names[i], ids[i], i)
    {
      if i < k {
        assert ids[i] == ids[..k][i] && names[i] == names[..k][i];
        OldRowStays(db, mid, parent, p, names[i], ids[i], i, ids[k], row);
      }
    }
  }

  lemma OldRowStays(
    db: Db, mid: Db, parent: Uuid, p: nat, name: string, id: Uuid, i: nat, added: Uuid, row: Row)
    requires parent in db.subnets && FilledRow(db, mid, parent, p, name, id, i) && added != id
    ensures FilledRow(db, mid.(subnets := mid.subnets[added := row]), parent, p, name, id, i)
  {
  }

  /** After exactly 2^(p-b) of them the next request finds no address. */
  lemma FullAfterAllSlots(db: Db, parent: Uuid, p: nat, names: seq<string>, ids: seq<Uuid>, input: CreateInput, id: Uuid)
    requires Inv(db) && FreshFor(db, parent, names, ids)
    requires db.subnets[parent].subnet.prefix <= p <= 32
    requires ChildrenOf(db.subnets, Parent(SubnetKind, parent)) == {}
    requires |names| == Slots(Block(db.subnets[parent].subnet), p)
    requires AutoRequest(Run(db, AutoCalls(parent, p, names, ids)), input, id)
    requires input.parent == Parent(SubnetKind, parent) && input.prefixLen == p
    ensures var full := Run(db, AutoCalls(parent, p, names, ids));
            CreateSubnet(full, input, id)
            == Outcome(full, if LastAddr(Block(db.subnets[parent].subnet)) < MAX_WORD then Failed(NoFreeAddress)
                             else Reply.NeverReturns)
  {
    var full := Run(db, AutoCalls(parent, p, names, ids));
    RunKeepsInv(db, AutoCalls(parent, p, names, ids));
    FillsInOrder(db, parent, p, names, ids);
    FilledTaken(db, full, parent, p, names, ids);
    assert RowFits(db.subnets, parent);
    LastAddrIsLast(Block(db.subnets[parent].subnet));
    NextSlot(Block(db.subnets[parent].subnet), p, |names|, SiblingBlocks(full.subnets, input.parent));
    AutoCreateFollowsSearch(full, input, id);
  }

  // ---- giving an address back --------------------------------------------------------

  /** After a childless /p child is deleted, the next automatic /p under the same parent succeeds,
      at an address no higher than the freed one. */
  lemma DeleteThenCreate(db: Db, child: Uuid, input: CreateInput, id: Uuid)
    requires Inv(db) && child in db.subnets && db.subnets[child].subnet.parent == input.parent
    requires ChildrenOf(db.subnets, Parent(SubnetKind, child)) == {}
    requires input.prefixLen == db.subnets[child].subnet.prefix
    requires AutoRequest(RemoveSubnet(db, child).db, input, id)
    ensures var out := CreateSubnet(RemoveSubnet(db, child).db, input, id);
            out.reply.Done? && out.reply.value.address <= db.subnets[child].subnet.address
  {
    var after := RemoveSubnet(db, child).db;
    RemoveKeepsInv(db, child);
    FreedIsFree(db, child);
    assert after.subnets[input.parent.uuid] == db.subnets[input.parent.uuid];
    AutoCreateFollowsSearch(after, input, id);
  }

  lemma FreedIsFree(db: Db, child: Uuid)
    requires Inv(db) && child in db.subnets && db.subnets[child].subnet.parent.kind == SubnetKind
    requires ChildrenOf(db.subnets, Parent(SubnetKind, child)) == {}
    ensures var s := db.subnets[child].subnet;
            IsFree(Block(db.subnets[s.parent.uuid].subnet), s.prefix,
                   SiblingBlocks(RemoveSubnet(db, child).db.subnets, s.parent), Block(s))
  {
    var s := db.subnets[child].subnet;
    var rows := RemoveSubnet(db, child).db.subnets;
    assert RowFits(db.subnets, child);
    assert AllFit(rows) by {
      RemovalKeeps(db.subnets, {child});
    }
    OthersStayClear(db.subnets, rows, child);
  }

  lemma OthersStayClear(rows: Rows, after: Rows, child: Uuid)
    requires SiblingsDisjoint(rows) && child in rows && after == rows - {child} && AllFit(after)
    ensures forall t :: t in SiblingBlocks(after, rows[child].subnet.parent) ==> Disjoint(Block(rows[child].subnet), t)
  {
    var parent := rows[child].subnet.parent;
    forall t | t in SiblingBlocks(after, parent)
      ensures Disjoint(Block(rows[child].subnet), t)
    {
      var c := TakenIsChild(after, parent, t);
      assert Siblings(rows, child, c);
    }
  }
}
