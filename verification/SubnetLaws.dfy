/** What the network and subnet calls do, said in terms of the tables and the request alone: when each
    succeeds, exactly what it writes, and which error it gives otherwise.
 */
module SubnetLaws {
  import opened Common
  import opened Words
  import opened Blocks
  import opened IpUtil
  import opened Tables
  import opened Service
  import opened Filling
  import IpamStore

  // ---- tags --------------------------------------------------------------------------

  ghost predicate GoodTags(tags: seq<Tag>) {
    (forall i :: 0 <= i < |tags| ==> Trim(tags[i].key) != "")
    && (forall i, j :: 0 <= i < j < |tags| ==> Trim(tags[i].key) != Trim(tags[j].key))
  }

  /** Tag i repeats a key, or one of those seen before the list. */
  ghost predicate Repeats(tags: seq<Tag>, seen: set<string>, i: nat)
    requires i < |tags|
  {
    Trim(tags[i].key) in seen || exists j :: 0 <= j < i && Trim(tags[j].key) == Trim(tags[i].key)
  }

  ghost predicate IsFine(tags: seq<Tag>, seen: set<string>, i: nat)
    requires i < |tags|
  {
    Trim(tags[i].key) != "" && !Repeats(tags, seen, i)
  }

  /** The error is that of the first tag at fault. */
  ghost predicate FirstFault(tags: seq<Tag>, seen: set<string>, i: nat, e: Error) {
    i < |tags| && !IsFine(tags, seen, i) && (forall j :: 0 <= j < i ==> IsFine(tags, seen, j))
    && e == if Trim(tags[i].key) == "" then TagKeyRequired else DuplicateTagKey
  }

  lemma RestRepeats(tags: seq<Tag>, seen: set<string>, i: nat)
    requires i + 1 < |tags|
    ensures Repeats(tags, seen, i + 1) <==> Repeats(tags[1..], seen + {Trim(tags[0].key)}, i)
    ensures IsFine(tags, seen, i + 1) <==> IsFine(tags[1..], seen + {Trim(tags[0].key)}, i)
  {
    var rest := tags[1..];
    assert rest[i] == tags[i + 1];
    if j :| 0 <= j < i + 1 && Trim(tags[j].key) == Trim(tags[i + 1].key) {
      assert j > 0 ==> rest[j - 1] == tags[j];
    }
    if j :| 0 <= j < i && Trim(rest[j].key) == Trim(rest[i].key) {
      assert rest[j] == tags[j + 1];
    }
  }

  /** validateTags reports the first tag whose trimmed key is blank or a repetition. */
  lemma {:induction false} FirstFaultIsReported(tags: seq<Tag>, seen: set<string>) returns (i: nat)
    requires TagFault(tags, seen).Some?
    ensures FirstFault(tags, seen, i, TagFault(tags, seen).value)
  {
    var key := Trim(tags[0].key);
    if key == "" || key in seen {
      i := 0;
    } else {
      var k := FirstFaultIsReported(tags[1..], seen + {key});
      i := k + 1;
      RestRepeats(tags, seen, k);
      assert tags[1..][k] == tags[i];
      forall j | 0 <= j < i
        ensures IsFine(tags, seen, j)
      {
        if j > 0 {
          RestRepeats(tags, seen, j - 1);
        }
      }
    }
  }

  lemma TagsAreGood(tags: seq<Tag>)
    ensures TagFault(tags, {}) == None <==> GoodTags(tags)
  {
    TagsAccepted(tags, {});
  }

  // ---- networks ----------------------------------------------------------------------

  ghost predicate NoOtherNetwork(networks: map<Uuid, Network>, name: string, id: Uuid) {
    forall n :: n in networks && n != id ==> networks[n].name != name
  }

  /** A network is added exactly for a non-blank name nobody has, good tags and a new uuid: the trimmed
      name and description, and nothing else changes. */
  lemma NetworkAdded(db: Db, name: string, description: string, tags: seq<Tag>, id: Uuid)
    ensures var out := AddNetwork(db, name, description, tags, id);
            (out.reply.Done? <==>
              Trim(name) != "" && GoodTags(tags) && id !in db.networks && NoOtherNetwork(db.networks, Trim(name), id))
            && (out.reply.Done? ==>
                  out.db == Db(db.networks[id := Network(Trim(name), Trim(description))], db.subnets)
                  && out.reply.value == Network(Trim(name), Trim(description)))
            && (!out.reply.Done? ==> out.db == db && out.reply.Failed?)
    ensures var out := AddNetwork(db, name, description, tags, id);
            (Trim(name) == "" ==> out.reply == Failed(InvalidNetworkName))
            && (Trim(name) != "" && GoodTags(tags) && id !in db.networks && !NoOtherNetwork(db.networks, Trim(name), id) ==>
                  out.reply == Failed(NetworkNameTaken))
  {
    TagsAreGood(tags);
  }

  /** A network is changed exactly when it exists, the new name is non-blank and no other network has
      it, and the tags are good: to the trimmed name and description, and nothing else changes. */
  lemma NetworkChanged(db: Db, id: Uuid, name: string, description: string, tags: seq<Tag>)
    requires Inv(db)
    ensures var out := ChangeNetwork(db, id, name, description, tags);
            (out.reply.Done? <==>
              id in db.networks && Trim(name) != "" && GoodTags(tags) && NoOtherNetwork(db.networks, Trim(name), id))
            && (out.reply.Done? ==>
                  out.db == Db(db.networks[id := Network(Trim(name), Trim(description))], db.subnets)
                  && out.reply.value == Network(Trim(name), Trim(description)))
            && (!out.reply.Done? ==> out.db == db && out.reply.Failed?)
    ensures var out := ChangeNetwork(db, id, name, description, tags);
            (id !in db.networks ==> out.reply == Failed(NetworkNotFound))
            && (id in db.networks && Trim(name) == "" ==> out.reply == Failed(InvalidNetworkName))
            && (id in db.networks && Trim(name) != "" && GoodTags(tags) && !NoOtherNetwork(db.networks, Trim(name), id) ==>
                  out.reply == Failed(NetworkNameTaken))
  {
    TagsAreGood(tags);
    assert id in db.networks && Trim(name) == db.networks[id].name ==> NoOtherNetwork(db.networks, Trim(name), id);
  }

  // ---- creating a subnet -------------------------------------------------------------

  ghost predicate NameFree(rows: Rows, n: Uuid, name: string) {
    forall c :: c in rows && rows[c].networkUuid == n ==> rows[c].subnet.name != name
  }

  /** The fields of the request that have nothing to do with the store. */
  predicate WellAsked(input: CreateInput) {
    Trim(input.name) != "" && input.parent.uuid != NIL
    && (input.parent.kind == NetworkKind || input.parent.kind == SubnetKind)
    && (input.family == None || input.family == Some(IPv4Family))
  }

  predicate ParentIsThere(db: Db, parent: Parent) {
    (parent.kind == NetworkKind && parent.uuid in db.networks) || (parent.kind == SubnetKind && parent.uuid in db.subnets)
  }

  /** The network of a parent that is there. */
  function NetworkUnder(db: Db, parent: Parent): Uuid
    requires ParentIsThere(db, parent)
  {
    if parent.kind == NetworkKind then parent.uuid else db.subnets[parent.uuid].networkUuid
  }

  /** The request can only fail for its address. */
  ghost predicate Acceptable(db: Db, input: CreateInput, id: Uuid) {
    WellAsked(input) && ParentIsThere(db, input.parent) && id !in db.subnets
    && NameFree(db.subnets, NetworkUnder(db, input.parent), Trim(input.name))
  }

  lemma AcceptableIsCreatable(db: Db, input: CreateInput, id: Uuid)
    ensures Acceptable(db, input, id) <==> Creatable(db, input, id) && input.parent.uuid != NIL
  {
  }

  /** A request that is not acceptable writes nothing. */
  lemma UnacceptableFails(db: Db, input: CreateInput, id: Uuid)
    requires Inv(db) && !Acceptable(db, input, id)
    ensures !CreateSubnet(db, input, id).reply.Done? && CreateSubnet(db, input, id).db == db
  {
    ContextIsRight(db, input.parent);
    if CreateSubnet(db, input, id).reply.Done? {
      CreatedFits(db, ResolveParentContext(db, input.parent).value, input, id);
      NetworkIsLive(db, input.parent);
    }
  }

  /** Apart from its address, what a create fails for, in this order. */
  lemma CreateRefused(db: Db, input: CreateInput, id: Uuid)
    requires Inv(db)
    ensures !Acceptable(db, input, id) ==> !CreateSubnet(db, input, id).reply.Done? && CreateSubnet(db, input, id).db == db
    ensures var reply := CreateSubnet(db, input, id).reply;
            (Trim(input.name) == "" ==> reply == Failed(InvalidSubnetName))
            && (Trim(input.name) != "" && (input.parent.uuid == NIL || input.parent.kind == NoKind) ==>
                  reply == Failed(InvalidSubnetParent))
            && (WellAsked(input.(parent := input.parent.(kind := SubnetKind))) && input.parent.kind == UnknownKind ==>
                  reply == Failed(InvalidSubnetParent))
            && (WellAsked(input.(family := None)) && !WellAsked(input) ==> reply == Failed(IPv6NotSupported))
            && (WellAsked(input) && !ParentIsThere(db, input.parent) ==> reply == Failed(ParentNotFound))
            && (WellAsked(input) && ParentIsThere(db, input.parent)
                && !NameFree(db.subnets, NetworkUnder(db, input.parent), Trim(input.name)) ==>
                  reply == Failed(SubnetNameTaken))
  {
    if !Acceptable(db, input, id) {
      UnacceptableFails(db, input, id);
    }
    if ParentIsThere(db, input.parent) {
      NetworkIsLive(db, input.parent);
    }
  }

  /** The row a create writes for a block. */
  function Written(db: Db, input: CreateInput, b: Prefix): Row
    requires ParentIsThere(db, input.parent)
  {
    Row(NetworkUnder(db, input.parent),
        Subnet(Trim(input.name), Trim(input.description), b.bits, b.addr, IPv4Family, input.parent))
  }

  ghost predicate Writes(db: Db, input: CreateInput, id: Uuid, b: Prefix, out: Outcome<Subnet>) {
    ParentIsThere(db, input.parent)
    && out == Outcome(db.(subnets := db.subnets[id := Written(db, input, b)]), Done(Written(db, input, b).subnet))
  }

  /** A create with an address succeeds exactly for an acceptable request whose address is IPv4, whose
      length is 1 to 32, and whose block is admissible; it writes that block and nothing else. */
  lemma CreateWithAddress(db: Db, input: CreateInput, id: Uuid)
    requires Inv(db) && input.address.Text?
    ensures var t := input.address.parsed;
            var out := CreateSubnet(db, input, id);
            (out.reply.Done? <==>
              Acceptable(db, input, id) && t.IPv4? && 1 <= input.prefixLen <= 32
              && Admissible(db, input.parent, Masked(Prefix(t.value, input.prefixLen))))
            && (out.reply.Done? ==> t.IPv4? && 0 <= input.prefixLen
                                    && Writes(db, input, id, Masked(Prefix(t.value, input.prefixLen)), out))
            && (!out.reply.Done? ==> out.db == db)
  {
    CreateRefused(db, input, id);
    if Acceptable(db, input, id) {
      AcceptableIsCreatable(db, input, id);
      CreatableCommits(db, input, id);
      NetworkIsLive(db, input.parent);
      if input.address.parsed.IPv4? {
        ExplicitCreateSucceedsIff(db, input, id, input.address.parsed.value);
      }
    }
  }

  /** Which error an address gives. */
  lemma AddressErrors(db: Db, input: CreateInput, id: Uuid)
    requires Inv(db) && Acceptable(db, input, id) && input.address.Text?
    ensures var t := input.address.parsed;
            var reply := CreateSubnet(db, input, id).reply;
            (!(1 <= input.prefixLen <= 32) ==> reply == Failed(InvalidSubnetPrefix))
            && (1 <= input.prefixLen <= 32 && t.NotIPv4? ==> reply == Failed(InvalidSubnetAddress))
            && (1 <= input.prefixLen <= 32 && t.IPv4? ==>
                  var b := Masked(Prefix(t.value, input.prefixLen));
                  BlockError(db, input.parent, b).Some? ==> reply == Failed(BlockError(db, input.parent, b).value))
  {
    AcceptableIsCreatable(db, input, id);
    CreatableCommits(db, input, id);
    if 1 <= input.prefixLen <= 32 && input.address.parsed.IPv4? {
      var b := Masked(Prefix(input.address.parsed.value, input.prefixLen));
      MaskedIsWellFormed(Prefix(input.address.parsed.value, input.prefixLen));
      NetworkIsLive(db, input.parent);
      var p := ParentBlock(db, input.parent);
      VerdictOnChildren(db, input.parent, b, p);
      ErrorsMatch(p.Some? && b.bits < p.value.bits, p.Some? && !(Addresses(b) <= Addresses(p.value)),
                  !ClearOfChildren(db, input.parent, b));
    }
  }

  ghost predicate ClearOfChildren(db: Db, parent: Parent, b: Prefix) {
    forall c :: c in ChildrenOf(db.subnets, parent) ==> Addresses(b) !! Addresses(Block(db.subnets[c].subnet))
  }

  lemma ClearMeansChildren(db: Db, parent: Parent, b: Prefix)
    requires Inv(db)
    ensures Clear(b, SiblingBlocks(db.subnets, parent)) <==> ClearOfChildren(db, parent, b)
  {
    TakenMeansChild(db, parent, b);
  }

  lemma VerdictByClear(b: Prefix, parent: Option<Prefix>, taken: set<Prefix>)
    requires WellFormed(b)
    ensures Verdict(b, parent, taken)
         == First(parent.Some? && b.bits < parent.value.bits,
                  parent.Some? && !(Addresses(b) <= Addresses(parent.value)), !Clear(b, taken))
  {
  }

  function ParentBlock(db: Db, parent: Parent): Option<Prefix>
    requires ParentIsThere(db, parent)
  {
    if parent.kind == SubnetKind then Some(Block(db.subnets[parent.uuid].subnet)) else None
  }

  /** The first of three faults. */
  function First(broad: bool, outside: bool, clash: bool): Option<IpError> {
    if broad then Some(PrefixTooBroad) else if outside then Some(OutsideParent)
    else if clash then Some(OverlapError) else None
  }

  function ErrorFor(v: Option<IpError>): Option<Error> {
    match v
    case None => None
    case Some(PrefixTooBroad) => Some(PrefixTooBroadForParent)
    case Some(OutsideParent) => Some(AddressOutsideParent)
    case Some(_) => Some(SubnetOverlap)
  }

  lemma VerdictOnChildren(db: Db, parent: Parent, b: Prefix, p: Option<Prefix>)
    requires Inv(db) && WellFormed(b)
    ensures Verdict(b, p, SiblingBlocks(db.subnets, parent))
         == First(p.Some? && b.bits < p.value.bits, p.Some? && !(Addresses(b) <= Addresses(p.value)),
                  !ClearOfChildren(db, parent, b))
  {
    VerdictByClear(b, p, SiblingBlocks(db.subnets, parent));
    ClearMeansChildren(db, parent, b);
  }

  lemma ErrorsMatch(x: bool, y: bool, z: bool)
    ensures First(x, y, z).Some? ==> ErrorFor(First(x, y, z)) == Some(ToError(First(x, y, z).value))
    ensures First(x, y, z) == None <==> ErrorFor(First(x, y, z)) == None
  {
  }

  /** What is wrong with a block under a parent: broader than the parent, outside it, or on a child. */
  ghost function BlockError(db: Db, parent: Parent, b: Prefix): Option<Error>
    requires ParentIsThere(db, parent)
  {
    var p := ParentBlock(db, parent);
    ErrorFor(First(p.Some? && b.bits < p.value.bits, p.Some? && !(Addresses(b) <= Addresses(p.value)),
                   !ClearOfChildren(db, parent, b)))
  }

  /** b is the lowest block of its length below the parent that meets no child of it. */
  ghost predicate LowestAdmissible(db: Db, parent: Parent, b: Prefix)
    requires ParentExists(db, parent)
  {
    Admissible(db, parent, b)
    && forall a :: Admissible(db, parent, a) && a.bits == b.bits ==> b.addr <= a.addr
  }

  lemma FreeIsAdmissible(db: Db, parent: Parent, b: Prefix)
    requires Inv(db) && parent.kind == SubnetKind && parent.uuid in db.subnets
    ensures IsFree(Block(db.subnets[parent.uuid].subnet), b.bits, SiblingBlocks(db.subnets, parent), b)
       <==> Admissible(db, parent, b)
  {
    TakenMeansChild(db, parent, b);
    SetForms(b, Block(db.subnets[parent.uuid].subnet));
    forall t | t in SiblingBlocks(db.subnets, parent)
      ensures Disjoint(b, t) <==> Addresses(b) !! Addresses(t)
    {
      SetForms(b, t);
    }
  }

  lemma FoundIsLowest(db: Db, parent: Parent, p: nat)
    requires Inv(db) && parent.kind == SubnetKind && parent.uuid in db.subnets
    ensures var r := Search(Block(db.subnets[parent.uuid].subnet), p, SiblingBlocks(db.subnets, parent));
            (r.Found? ==> r.block.bits == p && LowestAdmissible(db, parent, r.block))
            && (!r.Found? ==> forall b :: Admissible(db, parent, b) ==> b.bits != p)
  {
    var space := Block(db.subnets[parent.uuid].subnet);
    var taken := SiblingBlocks(db.subnets, parent);
    forall b: Prefix
      ensures IsFree(space, b.bits, taken, b) <==> Admissible(db, parent, b)
    {
      FreeIsAdmissible(db, parent, b);
    }
    if !Search(space, p, taken).Found? {
      forall b | Admissible(db, parent, b)
        ensures b.bits != p
      {
        assert IsFree(space, b.bits, taken, b);
      }
    }
  }

  /** There is an admissible block of that length. */
  ghost predicate HasRoom(db: Db, parent: Parent, p: int)
    requires ParentExists(db, parent)
  {
    exists b :: Admissible(db, parent, b) && b.bits == p
  }

  /** A create without an address succeeds exactly for an acceptable request under a subnet, of a length
      from the parent's to 32, with room for it; it writes the lowest admissible block of that length. */
  lemma CreateAutomatically(db: Db, input: CreateInput, id: Uuid)
    requires Inv(db) && input.address == Blank
    ensures var out := CreateSubnet(db, input, id);
            (out.reply.Done? <==>
              Acceptable(db, input, id) && input.parent.kind == SubnetKind
              && db.subnets[input.parent.uuid].subnet.prefix <= input.prefixLen <= 32
              && HasRoom(db, input.parent, input.prefixLen))
            && (out.reply.Done? ==>
                  ParentExists(db, input.parent) && exists b ::
                    LowestAdmissible(db, input.parent, b) && b.bits == input.prefixLen && Writes(db, input, id, b, out))
            && (!out.reply.Done? ==> out.db == db)
  {
    CreateRefused(db, input, id);
    if Acceptable(db, input, id) {
      AcceptableIsCreatable(db, input, id);
      if AutoRequest(db, input, id) {
        AutomaticWrites(db, input, id);
      } else {
        AutomaticErrors(db, input, id);
      }
    }
  }

  lemma AutomaticWrites(db: Db, input: CreateInput, id: Uuid)
    requires Inv(db) && AutoRequest(db, input, id)
    ensures var out := CreateSubnet(db, input, id);
            (out.reply.Done? <==> HasRoom(db, input.parent, input.prefixLen))
            && (out.reply.Done? ==>
                  exists b :: LowestAdmissible(db, input.parent, b) && b.bits == input.prefixLen && Writes(db, input, id, b, out))
            && (!out.reply.Done? ==> out.db == db)
  {
    AutoCreateFollowsSearch(db, input, id);
    FoundIsLowest(db, input.parent, input.prefixLen);
    var r := Search(Block(db.subnets[input.parent.uuid].subnet), input.prefixLen, SiblingBlocks(db.subnets, input.parent));
    if r.Found? {
      assert Writes(db, input, id, r.block, CreateSubnet(db, input, id));
      assert Admissible(db, input.parent, r.block);
    }
  }

  /** Which error a request for an automatic address gives. */
  lemma AutomaticErrors(db: Db, input: CreateInput, id: Uuid)
    requires Inv(db) && Acceptable(db, input, id) && input.address == Blank
    ensures var out := CreateSubnet(db, input, id);
            (input.parent.kind == NetworkKind ==> out == Outcome(db, Failed(AddressRequired)))
            && (input.parent.kind == SubnetKind ==>
                  var p := db.subnets[input.parent.uuid].subnet.prefix;
                  (!(1 <= input.prefixLen <= 32) ==> out == Outcome(db, Failed(InvalidSubnetPrefix)))
                  && (1 <= input.prefixLen < p ==> out == Outcome(db, Failed(PrefixTooBroadForParent)))
                  && (p <= input.prefixLen <= 32 && !HasRoom(db, input.parent, input.prefixLen) ==>
                        out == Outcome(db, if LastAddr(Block(db.subnets[input.parent.uuid].subnet)) < MAX_WORD
                                           then Failed(NoFreeAddress) else Reply.NeverReturns)))
  {
    AcceptableIsCreatable(db, input, id);
    CreatableCommits(db, input, id);
    NetworkIsLive(db, input.parent);
    if input.parent.kind == SubnetKind {
      assert RowFits(db.subnets, input.parent.uuid);
      LastAddrIsLast(Block(db.subnets[input.parent.uuid].subnet));
      if AutoRequest(db, input, id) {
        AutoCreateFollowsSearch(db, input, id);
        FoundIsLowest(db, input.parent, input.prefixLen);
        RoomMeansFound(db, input.parent, input.prefixLen);
      }
    }
  }

  lemma RoomMeansFound(db: Db, parent: Parent, p: nat)
    requires Inv(db) && parent.kind == SubnetKind && parent.uuid in db.subnets
    ensures var r := Search(Block(db.subnets[parent.uuid].subnet), p, SiblingBlocks(db.subnets, parent));
            r.Found? <==> HasRoom(db, parent, p)
  {
    FoundIsLowest(db, parent, p);
  }

  // ---- scoped calls ------------------------------------------------------------------

  /** The parent is the network itself or one of its subnets. */
  predicate BelongsTo(db: Db, n: Uuid, parent: Parent) {
    (parent.kind == NetworkKind && parent.uuid == n)
    || (parent.kind == SubnetKind && parent.uuid in db.subnets && db.subnets[parent.uuid].networkUuid == n)
  }

  /** A scoped create is the plain create for a parent of the network, and otherwise changes nothing and
      says why. */
  lemma ScopedCreate(db: Db, n: Uuid, parent: Parent, input: CreateInput, id: Uuid)
    requires Inv(db)
    ensures var out := CreateInNetwork(db, n, parent, input, id);
            if BelongsTo(db, n, parent) then out == CreateSubnet(db, input.(parent := parent), id)
            else out == Outcome(db, Failed(
              if parent.kind == NetworkKind then SubnetNotInNetwork
              else if parent.kind != SubnetKind then InvalidSubnetParent
              else if parent.uuid in db.subnets then SubnetNotInNetwork
              else SubnetNotFound))
  {
    IpamStore.ScopedLookup(db, n, parent.uuid);
    ScopedErrors(db, n, parent.uuid);
  }

  /** What the scoped lookup answers. */
  lemma ScopedErrors(db: Db, n: Uuid, id: Uuid)
    requires Inv(db)
    ensures EnsureInNetwork(db, n, id)
         == if id !in db.subnets then Failed(SubnetNotFound)
            else if db.subnets[id].networkUuid != n then Failed(SubnetNotInNetwork)
            else Done(db.subnets[id].subnet)
  {
    if id in db.subnets {
      WalkAgrees(db.subnets, id, |db.subnets|);
    }
  }

  /** A scoped create with an address succeeds exactly for a parent of the network and an acceptable
      request with an admissible block. */
  lemma ScopedCreateWithAddress(db: Db, n: Uuid, parent: Parent, input: CreateInput, id: Uuid)
    requires Inv(db) && input.address.Text?
    ensures var t := input.address.parsed;
            var placed := input.(parent := parent);
            var out := CreateInNetwork(db, n, parent, input, id);
            (out.reply.Done? <==>
              BelongsTo(db, n, parent) && Acceptable(db, placed, id) && t.IPv4? && 1 <= input.prefixLen <= 32
              && Admissible(db, parent, Masked(Prefix(t.value, input.prefixLen))))
            && (out.reply.Done? ==> t.IPv4? && 0 <= input.prefixLen
                                    && Writes(db, placed, id, Masked(Prefix(t.value, input.prefixLen)), out))
  {
    ScopedCreate(db, n, parent, input, id);
    CreateWithAddress(db, input.(parent := parent), id);
  }

  /** A scoped create without an address succeeds exactly for a subnet of the network with room. */
  lemma ScopedCreateAutomatically(db: Db, n: Uuid, parent: Parent, input: CreateInput, id: Uuid)
    requires Inv(db) && input.address == Blank
    ensures var placed := input.(parent := parent);
            var out := CreateInNetwork(db, n, parent, input, id);
            (out.reply.Done? <==>
              BelongsTo(db, n, parent) && Acceptable(db, placed, id) && parent.kind == SubnetKind
              && db.subnets[parent.uuid].subnet.prefix <= input.prefixLen <= 32 && HasRoom(db, parent, input.prefixLen))
            && (out.reply.Done? ==>
                  ParentExists(db, parent) && exists b ::
                    LowestAdmissible(db, parent, b) && b.bits == input.prefixLen && Writes(db, placed, id, b, out))
  {
    ScopedCreate(db, n, parent, input, id);
    CreateAutomatically(db, input.(parent := parent), id);
  }
}
