/** The store as an object: two tables that repository methods write and service methods drive.
    Every method is held to the function of module Service that specifies the call.
 */
module IpamStore {
  import opened Common
  import opened Blocks
  import opened IpUtil
  import opened Tables
  import opened Service

  datatype Entry = Entry(uuid: Uuid, subnet: Subnet)

  /** list shows each of the rows named by ids once. */
  ghost predicate IsListing(rows: Rows, ids: set<Uuid>, list: seq<Entry>) {
    |list| == |ids|
    && (forall e :: e in list ==> e.uuid in ids && e.uuid in rows && rows[e.uuid].subnet == e.subnet)
    && (forall id :: id in ids ==> id in rows && Entry(id, rows[id].subnet) in list)
  }

  function AsReply<T>(r: Result<T, Error>): Reply<T> {
    match r
    case Ok(v) => Done(v)
    case Err(e) => Failed(e)
  }

  /** The blocks of the IPv4 subnets in a list. */
  ghost function Blocks4(list: seq<Entry>): set<Prefix> {
    set e | e in list && e.subnet.family == IPv4Family :: Masked(Block(e.subnet))
  }

  predicate Parses(s: Subnet) {
    s.family == IPv4Family ==> 1 <= s.prefix <= 32
  }

  method SubnetsToPrefixes(list: seq<Entry>) returns (r: Result<seq<Prefix>, Error>)
    ensures r.Ok? <==> forall e :: e in list ==> Parses(e.subnet)
    ensures r.Ok? ==> ToSet(r.value) == Blocks4(list) && AllWellFormed(ToSet(r.value))
    ensures r.Err? ==> r.error == StoreFailure
  {
    var prefixes: seq<Prefix> := [];
    for i := 0 to |list|
      invariant forall e :: e in list[..i] ==> Parses(e.subnet)
      invariant ToSet(prefixes) == Blocks4(list[..i]) && AllWellFormed(ToSet(prefixes))
    {
      assert list[..i + 1] == list[..i] + [list[i]];
      assert list[i] in list;
      var s := list[i].subnet;
      if s.family == IPv4Family {
        match ParseIPv4Prefix(IPv4(s.address), s.prefix) {
          case Err(_) => return Err(StoreFailure);
          case Ok(prefix) =>
            assert ToSet(prefixes + [prefix]) == ToSet(prefixes) + {prefix};
            prefixes := prefixes + [prefix];
        }
      }
    }
    assert list[..|list|] == list;
    return Ok(prefixes);
  }

  method ValidateTags(tags: seq<Tag>) returns (err: Option<Error>)
    ensures err == TagFault(tags, {})
    ensures err == None <==>
              (forall i :: 0 <= i < |tags| ==> Trim(tags[i].key) != "")
              && (forall i, j :: 0 <= i < j < |tags| ==> Trim(tags[i].key) != Trim(tags[j].key))
  {
    TagsAccepted(tags, {});
    var seen: set<string> := {};
    for i := 0 to |tags|
      invariant TagFault(tags, {}) == TagFault(tags[i..], seen)
    {
      var key := Trim(tags[i].key);
      assert tags[i..][1..] == tags[i + 1..];
      if key == "" {
        return Some(TagKeyRequired);
      }
      if key in seen {
        return Some(DuplicateTagKey);
      }
      seen := seen + {key};
    }
    return None;
  }

  /** A listing of the children yields the sibling blocks of the specification. */
  lemma ListingGivesSiblings(rows: Rows, parent: Parent, list: seq<Entry>)
    requires IsListing(rows, ChildrenOf(rows, parent), list)
    ensures SiblingsParse(rows, parent) <==> forall e :: e in list ==> Parses(e.subnet)
    ensures Blocks4(list) == SiblingBlocks(rows, parent)
  {
    forall id | id in ChildrenOf(rows, parent)
      ensures Entry(id, rows[id].subnet) in list
    {
    }
    assert Blocks4(list) <= SiblingBlocks(rows, parent);
    forall b | b in SiblingBlocks(rows, parent)
      ensures b in Blocks4(list)
    {
      var id :| id in ChildrenOf(rows, parent) && rows[id].subnet.family == IPv4Family
                && b == Masked(Block(rows[id].subnet));
      assert Entry(id, rows[id].subnet) in list;
    }
  }

  class Store {
    var networks: map<Uuid, Network>
    var subnets: Rows

    ghost function Tables(): Db
      reads this
    {
      Db(networks, subnets)
    }

    ghost predicate Valid()
      reads this
    {
      Inv(Tables())
    }

    constructor ()
      ensures Tables() == EMPTY && Valid()
    {
      networks, subnets := map[], map[];
      new;
      Reachable([]);
    }

    // ---- repository ------------------------------------------------------------------

    method Insert(id: Uuid, s: Subnet) returns (err: Option<Error>)
      modifies this
      ensures match InsertSubnet(old(Tables()), id, s)
              case Ok(db) => err == None && Tables() == db
              case Err(e) => err == Some(e) && Tables() == old(Tables())
    {
      var n := NetworkOfParent(subnets, s.parent);
      if n.None? || id in subnets || n.value !in networks || NameTaken(subnets, n.value, s.name) {
        return Some(StoreFailure);
      }
      subnets := subnets[id := Row(n.value, s)];
      return None;
    }

    method Overwrite(id: Uuid, s: Subnet) returns (err: Option<Error>)
      modifies this
      ensures match UpdateSubnet(old(Tables()), id, s)
              case Ok(db) => err == None && Tables() == db
              case Err(e) => err == Some(e) && Tables() == old(Tables())
    {
      var n := NetworkOfParent(subnets, s.parent);
      if n.None? {
        return Some(StoreFailure);
      }
      if id !in subnets {
        return Some(SubnetNotFound);
      }
      if n.value !in networks || NameTakenByOther(subnets, n.value, s.name, id) {
        return Some(StoreFailure);
      }
      subnets := subnets[id := Row(n.value, s)];
      return None;
    }

    /** The loop over the rows a query selects. */
    method ListRows(wanted: set<Uuid>) returns (list: seq<Entry>)
      requires wanted <= subnets.Keys
      ensures IsListing(subnets, wanted, list)
    {
      list := [];
      var rest := wanted;
      while rest != {}
        invariant rest <= wanted && IsListing(subnets, wanted - rest, list)
        decreases rest
      {
        var id :| id in rest;
        assert wanted - (rest - {id}) == (wanted - rest) + {id};
        list := list + [Entry(id, subnets[id].subnet)];
        rest := rest - {id};
      }
      assert wanted - rest == wanted;
    }

    method ListByParent(parent: Parent) returns (list: seq<Entry>)
      ensures IsListing(subnets, ChildrenOf(subnets, parent), list)
    {
      list := ListRows(ChildrenOf(subnets, parent));
    }

    // ---- reading ---------------------------------------------------------------------

    /** The recursion up the parents; fuel only bounds it, and a valid store has enough. */
    method ResolveNetworkUuid(s: Subnet, ghost fuel: nat) returns (r: Result<Uuid, Error>)
      requires !Walk(subnets, s, fuel).OutOfFuel?
      ensures r == match Walk(subnets, s, fuel)
                   case Arrived(n) => Ok(n)
                   case _ => Err(ParentNotFound)
      decreases fuel
    {
      if s.parent.kind == NetworkKind {
        return Ok(s.parent.uuid);
      }
      if s.parent.uuid !in subnets {
        return Err(ParentNotFound);
      }
      r := ResolveNetworkUuid(subnets[s.parent.uuid].subnet, fuel - 1);
    }

    method EnsureNetwork(networkUuid: Uuid, id: Uuid) returns (r: Result<Subnet, Error>)
      requires !EnsureInNetwork(Tables(), networkUuid, id).NeverReturns?
      ensures AsReply(r) == EnsureInNetwork(Tables(), networkUuid, id)
    {
      if id !in subnets {
        return Err(SubnetNotFound);
      }
      var s := subnets[id].subnet;
      var n := ResolveNetworkUuid(s, |subnets|);
      if n.Err? {
        return Err(n.error);
      }
      if n.value != networkUuid {
        return Err(SubnetNotInNetwork);
      }
      return Ok(s);
    }

    method List(networkUuid: Uuid) returns (r: Result<seq<Entry>, Error>)
      requires Valid()
      ensures r.Ok? <==> networkUuid in networks
      ensures r.Err? ==> r.error == NetworkNotFound
      ensures r.Ok? ==> forall id ::
                EnsureInNetwork(Tables(), networkUuid, id).Done?
                <==> id in subnets && Entry(id, subnets[id].subnet) in r.value
      ensures r.Ok? ==> IsListing(subnets, ListByNetwork(Tables(), networkUuid).value, r.value)
    {
      if networkUuid !in networks {
        return Err(NetworkNotFound);
      }
      var list := ListRows(Cascade(subnets, networkUuid));
      forall id | id in subnets
        ensures EnsureInNetwork(Tables(), networkUuid, id).Done? <==> subnets[id].networkUuid == networkUuid
      {
        ScopedLookup(Tables(), networkUuid, id);
      }
      return Ok(list);
    }

    method ParentContext(parent: Parent) returns (r: Result<Context, Error>)
      requires !ResolveParentContext(Tables(), parent).NeverReturns?
      ensures AsReply(r) == ResolveParentContext(Tables(), parent)
    {
      match parent.kind {
        case NetworkKind =>
          if parent.uuid !in networks {
            return Err(ParentNotFound);
          }
          return Ok(Context(parent.uuid, None));
        case SubnetKind =>
          if parent.uuid !in subnets {
            return Err(ParentNotFound);
          }
          var s := subnets[parent.uuid].subnet;
          if s.family != IPv4Family {
            return Err(IPv6NotSupported);
          }
          var prefix := ParseIPv4Prefix(IPv4(s.address), s.prefix);
          if prefix.Err? {
            return Err(StoreFailure);
          }
          var n := ResolveNetworkUuid(s, |subnets|);
          if n.Err? {
            return Err(n.error);
          }
          return Ok(Context(n.value, Some(prefix.value)));
        case _ =>
          return Err(InvalidSubnetParent);
      }
    }

    // ---- subnets ---------------------------------------------------------------------

    /** Choosing the block: the given address, or the first free block of the parent. */
    method Choose(ctx: Context, input: CreateInput, siblings: seq<Prefix>) returns (r: Result<Prefix, Error>)
      requires AllWellFormed(ToSet(siblings))
      requires ctx.parentPrefix.Some? ==> WellFormed(ctx.parentPrefix.value)
      requires Candidate(ctx, input, ToSet(siblings)) != None
      ensures Candidate(ctx, input, ToSet(siblings)) == Some(r)
    {
      match input.address {
        case Text(text) =>
          var parsed := ParseIPv4Prefix(text, input.prefixLen);
          if parsed.Err? {
            return Err(ToError(parsed.error));
          }
          return Ok(parsed.value);
        case Blank =>
          if input.parent.kind == NetworkKind {
            return Err(AddressRequired);
          }
          if ctx.parentPrefix.None? {
            return Err(StoreFailure);
          }
          var found := FindFreeIPv4Block(ctx.parentPrefix.value, input.prefixLen, siblings);
          if found.Err? {
            return Err(ToError(found.error));
          }
          return Ok(found.value);
      }
    }

    /** CreateAtomically with the closure Create passes to it. */
    method CreateLocked(ctx: Context, input: CreateInput, id: Uuid) returns (r: Result<Subnet, Error>)
      requires ctx.parentPrefix.Some? ==> WellFormed(ctx.parentPrefix.value)
      requires !CommitCreate(Tables(), ctx, input, id).reply.NeverReturns?
      modifies this
      ensures Outcome(Tables(), AsReply(r)) == CommitCreate(old(Tables()), ctx, input, id)
    {
      if !(match input.parent.kind
           case NetworkKind => input.parent.uuid in networks
           case SubnetKind => input.parent.uuid in subnets
           case _ => false)
      {
        return Err(ParentNotFound);
      }
      if NameTaken(subnets, ctx.networkUuid, Trim(input.name)) {
        return Err(SubnetNameTaken);
      }
      var siblings := ListByParent(input.parent);
      var prefixes := SubnetsToPrefixes(siblings);
      ListingGivesSiblings(subnets, input.parent, siblings);
      if prefixes.Err? {
        return Err(prefixes.error);
      }
      var candidate := Choose(ctx, input, prefixes.value);
      if candidate.Err? {
        return Err(candidate.error);
      }
      CandidateIsWellFormed(ctx, input, ToSet(prefixes.value));
      assert forall b :: b in prefixes.value ==> b in ToSet(prefixes.value);
      VerdictOfMasked(candidate.value, ctx.parentPrefix, prefixes.value);
      var fault := ValidateIPv4Subnet(candidate.value, ctx.parentPrefix, prefixes.value);
      if fault.Some? {
        return Err(ToError(fault.value));
      }
      var s := NewSubnet(input, candidate.value);
      var err := Insert(id, s);
      if err.Some? {
        return Err(err.value);
      }
      return Ok(s);
    }

    method Create(input: CreateInput, id: Uuid) returns (r: Result<Subnet, Error>)
      requires Valid()
      // where the search of the original runs forever, there is no result to specify
      requires !CreateSubnet(Tables(), input, id).reply.NeverReturns?
      modifies this
      ensures Valid()
      ensures Outcome(Tables(), AsReply(r)) == CreateSubnet(old(Tables()), input, id)
    {
      CreateKeepsInv(Tables(), input, id);
      ContextIsRight(Tables(), input.parent);
      if Trim(input.name) == "" {
        return Err(InvalidSubnetName);
      }
      if input.parent.kind == NoKind || input.parent.uuid == NIL {
        return Err(InvalidSubnetParent);
      }
      if input.family.Some? && input.family.value != IPv4Family {
        return Err(IPv6NotSupported);
      }
      var ctx := ParentContext(input.parent);
      if ctx.Err? {
        return Err(ctx.error);
      }
      r := CreateLocked(ctx.value, input, id);
    }

    method CreateUnder(networkUuid: Uuid, parent: Parent, input: CreateInput, id: Uuid)
      returns (r: Result<Subnet, Error>)
      requires Valid()
      requires !CreateInNetwork(Tables(), networkUuid, parent, input, id).reply.NeverReturns?
      modifies this
      ensures Valid()
      ensures Outcome(Tables(), AsReply(r)) == CreateInNetwork(old(Tables()), networkUuid, parent, input, id)
      ensures r.Ok? ==> id in subnets && subnets[id] == Row(networkUuid, r.value)
    {
      CreatedInNetwork(Tables(), networkUuid, parent, input, id);
      match parent.kind {
        case NetworkKind =>
          if parent.uuid != networkUuid {
            return Err(SubnetNotInNetwork);
          }
        case SubnetKind =>
          ScopedLookup(Tables(), networkUuid, parent.uuid);
          var scoped := EnsureNetwork(networkUuid, parent.uuid);
          if scoped.Err? {
            return Err(scoped.error);
          }
        case _ =>
          return Err(InvalidSubnetParent);
      }
      r := Create(input.(parent := parent), id);
    }

    method Update(id: Uuid, description: string) returns (r: Result<Subnet, Error>)
      requires Valid()
      modifies this
      ensures Valid() && networks == old(networks)
      ensures Outcome(Tables(), AsReply(r)) == UpdateDescription(old(Tables()), id, description)
      ensures r.Ok? <==> id in old(subnets)
      ensures r.Ok? ==> subnets == old(subnets)[id := Row(old(subnets)[id].networkUuid, r.value)]
      ensures r.Ok? ==> r.value == old(subnets)[id].subnet.(description := Trim(description))
      ensures r.Err? ==> subnets == old(subnets)
    {
      UpdateKeepsInv(Tables(), id, description);
      if id !in subnets {
        return Err(SubnetNotFound);
      }
      var s := subnets[id].subnet.(description := Trim(description));
      var err := Overwrite(id, s);
      r := match err
        case None => Ok(s)
        case Some(e) => Err(e);
    }

    method UpdateUnder(networkUuid: Uuid, id: Uuid, description: string) returns (r: Result<Subnet, Error>)
      requires Valid()
      modifies this
      ensures Valid()
      ensures r.Ok? <==> id in old(subnets) && old(subnets)[id].networkUuid == networkUuid
      ensures r.Ok? ==> Outcome(Tables(), Done(r.value)) == UpdateDescription(old(Tables()), id, description)
      ensures r.Err? ==> Tables() == old(Tables()) && Failed(r.error) == EnsureInNetwork(Tables(), networkUuid, id)
    {
      ScopedLookup(Tables(), networkUuid, id);
      var scoped := EnsureNetwork(networkUuid, id);
      if scoped.Err? {
        return Err(scoped.error);
      }
      r := Update(id, description);
    }

    method Delete(id: Uuid) returns (err: Option<Error>)
      requires Valid()
      modifies this
      ensures Valid() && networks == old(networks)
      ensures err == None <==> id in old(subnets) && ChildrenOf(old(subnets), Parent(SubnetKind, id)) == {}
      ensures err.Some? ==> err.value == if id in subnets then SubnetHasChildren else SubnetNotFound
      ensures subnets == if err == None then old(subnets) - {id} else old(subnets)
      ensures Tables() == RemoveSubnet(old(Tables()), id).db
    {
      RemoveKeepsInv(Tables(), id);
      if id !in subnets {
        return Some(SubnetNotFound);
      }
      var children := ListByParent(Parent(SubnetKind, id));
      if |children| > 0 {
        return Some(SubnetHasChildren);
      }
      subnets := subnets - {id};
      return None;
    }

    method DeleteUnder(networkUuid: Uuid, id: Uuid) returns (err: Option<Error>)
      requires Valid()
      modifies this
      ensures Valid() && networks == old(networks)
      ensures err == None <==> id in old(subnets) && old(subnets)[id].networkUuid == networkUuid
                               && ChildrenOf(old(subnets), Parent(SubnetKind, id)) == {}
      ensures subnets == if err == None then old(subnets) - {id} else old(subnets)
      ensures EnsureInNetwork(old(Tables()), networkUuid, id).Done? ==> Tables() == RemoveSubnet(old(Tables()), id).db
    {
      ScopedLookup(Tables(), networkUuid, id);
      var scoped := EnsureNetwork(networkUuid, id);
      if scoped.Err? {
        return Some(scoped.error);
      }
      err := Delete(id);
    }

    // ---- networks --------------------------------------------------------------------

    method InsertNetworkRow(id: Uuid, n: Network) returns (err: Option<Error>)
      modifies this`networks
      ensures match InsertNetwork(old(Tables()), id, n)
              case Ok(db) => err == None && Tables() == db
              case Err(e) => err == Some(e) && Tables() == old(Tables())
    {
      if id in networks || NetworkNameUsed(networks, n.name, id) {
        return Some(StoreFailure);
      }
      networks := networks[id := n];
      return None;
    }

    method OverwriteNetworkRow(id: Uuid, n: Network) returns (err: Option<Error>)
      modifies this`networks
      ensures match UpdateNetwork(old(Tables()), id, n)
              case Ok(db) => err == None && Tables() == db
              case Err(e) => err == Some(e) && Tables() == old(Tables())
    {
      if id !in networks {
        return Some(NetworkNotFound);
      }
      if NetworkNameUsed(networks, n.name, id) {
        return Some(StoreFailure);
      }
      networks := networks[id := n];
      return None;
    }

    method CreateNetwork(name: string, description: string, tags: seq<Tag>, id: Uuid)
      returns (r: Result<Network, Error>)
      requires Valid()
      modifies this
      ensures Valid()
      ensures Outcome(Tables(), AsReply(r)) == AddNetwork(old(Tables()), name, description, tags, id)
    {
      AddNetworkKeepsInv(Tables(), name, description, tags, id);
      if Trim(name) == "" {
        return Err(InvalidNetworkName);
      }
      var fault := ValidateTags(tags);
      if fault.Some? {
        return Err(fault.value);
      }
      if exists n | n in networks :: networks[n].name == Trim(name) {
        return Err(NetworkNameTaken);
      }
      var n := Network(Trim(name), Trim(description));
      var err := InsertNetworkRow(id, n);
      if err.Some? {
        return Err(err.value);
      }
      return Ok(n);
    }

    /** Fetch the record, change it and write it back. */
    method Amend(id: Uuid, name: string, description: string, tags: seq<Tag>)
      returns (r: Result<Network, Error>)
      modifies this`networks
      ensures Outcome(Tables(), AsReply(r)) == ChangeNetwork(old(Tables()), id, name, description, tags)
    {
      if id !in networks {
        return Err(NetworkNotFound);
      }
      if Trim(name) == "" {
        return Err(InvalidNetworkName);
      }
      var fault := ValidateTags(tags);
      if fault.Some? {
        return Err(fault.value);
      }
      if Trim(name) != networks[id].name && NetworkNameUsed(networks, Trim(name), id) {
        return Err(NetworkNameTaken);
      }
      var n := Network(Trim(name), Trim(description));
      var err := OverwriteNetworkRow(id, n);
      if err.Some? {
        return Err(err.value);
      }
      return Ok(n);
    }

    method EditNetwork(id: Uuid, name: string, description: string, tags: seq<Tag>)
      returns (r: Result<Network, Error>)
      requires Valid()
      modifies this`networks
      ensures Valid()
      ensures Outcome(Tables(), AsReply(r)) == ChangeNetwork(old(Tables()), id, name, description, tags)
    {
      ChangeNetworkKeepsInv(Tables(), name, description, tags, id);
      r := Amend(id, name, description, tags);
    }

    /** The guard looks at direct children only, and the cascade still removes no subnet. */
    method DropNetwork(id: Uuid) returns (err: Option<Error>)
      requires Valid()
      modifies this
      ensures Valid() && subnets == old(subnets)
      ensures err == None <==> id in old(networks) && (forall c :: c in subnets ==> subnets[c].networkUuid != id)
      ensures err.Some? ==> err.value == if id in networks then NetworkHasChildren else NetworkNotFound
      ensures networks == if err == None then old(networks) - {id} else old(networks)
      ensures Tables() == RemoveNetwork(old(Tables()), id).db
    {
      if id !in networks {
        return Some(NetworkNotFound);
      }
      EmptyNetwork(Tables(), id);
      var children := ListByParent(Parent(NetworkKind, id));
      if |children| > 0 {
        return Some(NetworkHasChildren);
      }
      subnets := subnets - Cascade(subnets, id);
      networks := networks - {id};
      return None;
    }
  }

  method Perform(store: Store, call: Call)
    requires store.Valid() && Returns(store.Tables(), call)
    modifies store
    ensures store.Valid() && store.Tables() == Apply(old(store.Tables()), call)
  {
    match call {
      case CallAddNetwork(_, _, _, _) => PerformOnNetwork(store, call);
      case CallChangeNetwork(_, _, _, _) => PerformOnNetwork(store, call);
      case CallRemoveNetwork(_) => PerformOnNetwork(store, call);
      case CallCreate(input, id) => var r := store.Create(input, id);
      case CallCreateInNetwork(n, parent, input, id) => var r := store.CreateUnder(n, parent, input, id);
      case CallUpdate(id, description) => var r := store.Update(id, description);
      case CallUpdateInNetwork(n, id, description) =>
        ScopedLookup(store.Tables(), n, id);
        var r := store.UpdateUnder(n, id, description);
      case CallRemove(id) => var err := store.Delete(id);
      case CallRemoveInNetwork(n, id) =>
        ScopedLookup(store.Tables(), n, id);
        var err := store.DeleteUnder(n, id);
    }
  }

  method PerformOnNetwork(store: Store, call: Call)
    requires store.Valid() && (call.CallAddNetwork? || call.CallChangeNetwork? || call.CallRemoveNetwork?)
    modifies store
    ensures store.Valid() && store.Tables() == Apply(old(store.Tables()), call)
  {
    match call {
      case CallAddNetwork(name, description, tags, id) => var r := store.CreateNetwork(name, description, tags, id);
      case CallChangeNetwork(id, name, description, tags) => var r := store.EditNetwork(id, name, description, tags);
      case CallRemoveNetwork(id) => var err := store.DropNetwork(id);
    }
  }

  ghost predicate AllReturn(calls: seq<Call>) {
    forall i :: 0 <= i < |calls| ==> Returns(Run(EMPTY, calls[..i]), calls[i])
  }

  lemma RunNext(calls: seq<Call>)
    requires calls != [] && AllReturn(calls)
    ensures var init, last := calls[..|calls| - 1], calls[|calls| - 1];
            AllReturn(init) && Returns(Run(EMPTY, init), last) && Run(EMPTY, calls) == Apply(Run(EMPTY, init), last)
  {
    var init := calls[..|calls| - 1];
    forall i | 0 <= i < |init|
      ensures Returns(Run(EMPTY, init[..i]), init[i])
    {
      assert init[..i] == calls[..i];
    }
  }

  ghost predicate Reflects(store: Store, db: Db)
    reads store
  {
    store.Valid() && store.Tables() == db
  }

  method PerformNext(store: Store, call: Call, ghost db: Db)
    requires Reflects(store, db) && Returns(db, call)
    modifies store
    ensures Reflects(store, Apply(db, call))
  {
    Perform(store, call);
  }

  /** A new store, driven through any calls that return, ends where the run of the calls ends: what
      is proved of reachable tables is proved of every such store. */
  method Drive(calls: seq<Call>) returns (store: Store)
    requires AllReturn(calls)
    ensures fresh(store) && Reflects(store, Run(EMPTY, calls))
    decreases |calls|
  {
    if calls == [] {
      store := new Store();
    } else {
      var init := calls[..|calls| - 1];
      RunNext(calls);
      store := Drive(init);
      PerformNext(store, calls[|calls| - 1], Run(EMPTY, init));
    }
  }

  /** A network without direct children is empty, and may go. */
  lemma EmptyNetwork(db: Db, id: Uuid)
    requires Inv(db) && id in db.networks
    ensures var childless := ChildrenOf(db.subnets, Parent(NetworkKind, id)) == {};
            (childless <==> forall c :: c in db.subnets ==> db.subnets[c].networkUuid != id)
            && (childless ==> db.subnets - Cascade(db.subnets, id) == db.subnets
                              && Inv(Db(db.networks - {id}, db.subnets)))
  {
    RemoveNetworkKeepsInv(db, id);
    NetworkDeleteCascadesNothing(db, id);
    assert forall c :: c in db.subnets && db.subnets[c].networkUuid == id ==> c in Cascade(db.subnets, id);
  }

  /** In a valid store the scoped lookup ends, and accepts exactly the rows of the network. */
  lemma ScopedLookup(db: Db, networkUuid: Uuid, id: Uuid)
    requires Inv(db)
    ensures !EnsureInNetwork(db, networkUuid, id).NeverReturns?
    ensures EnsureInNetwork(db, networkUuid, id).Done? <==> id in db.subnets && db.subnets[id].networkUuid == networkUuid
  {
    if id in db.subnets {
      WalkAgrees(db.subnets, id, |db.subnets|);
    }
  }

  /** What CreateInNetwork creates is a row of that network. */
  lemma CreatedInNetwork(db: Db, networkUuid: Uuid, parent: Parent, input: CreateInput, id: Uuid)
    requires Inv(db)
    ensures var out := CreateInNetwork(db, networkUuid, parent, input, id);
            out.reply.Done? ==> id in out.db.subnets && out.db.subnets[id] == Row(networkUuid, out.reply.value)
  {
    var out := CreateInNetwork(db, networkUuid, parent, input, id);
    if out.reply.Done? {
      ContextIsRight(db, parent);
      var ctx := ResolveParentContext(db, parent).value;
      CreatedFits(db, ctx, input.(parent := parent), id);
      if parent.kind == SubnetKind {
        WalkAgrees(db.subnets, parent.uuid, |db.subnets|);
      }
    }
  }
}
