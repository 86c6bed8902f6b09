/** The network and subnet service calls as functions on the tables, one atomic step each. */
module Service {
  import opened Common
  import opened Words
  import opened Blocks
  import opened IpUtil
  import opened Tables

  datatype AddressInput = Blank | Text(parsed: AddressText)

  datatype CreateInput = CreateInput(
    name: string, description: string, prefixLen: int, address: AddressInput,
    family: Option<Family>, parent: Parent)

  /** What Create reads about the parent before it takes the write lock. */
  datatype Context = Context(networkUuid: Uuid, parentPrefix: Option<Prefix>)

  datatype Reply<+T> = Done(value: T) | Failed(error: Error) | NeverReturns

  datatype Outcome<+T> = Outcome(db: Db, reply: Reply<T>)

  datatype Tag = Tag(key: string, value: string)

  function ToError(e: IpError): Error {
    match e
    case InvalidIPv4Address => InvalidSubnetAddress
    case InvalidPrefix => InvalidSubnetPrefix
    case PrefixTooBroad => PrefixTooBroadForParent
    case OutsideParent => AddressOutsideParent
    case OverlapError => SubnetOverlap
    case NoFreeBlock => NoFreeAddress
  }

  // ---- reading -----------------------------------------------------------------------

  function ResolveNetwork(rows: Rows, s: Subnet): Reply<Uuid> {
    match Walk(rows, s, |rows|)
    case Arrived(n) => Done(n)
    case Broken => Failed(ParentNotFound)
    case OutOfFuel => NeverReturns
  }

  function EnsureInNetwork(db: Db, networkUuid: Uuid, id: Uuid): Reply<Subnet> {
    if id !in db.subnets then Failed(SubnetNotFound)
    else
      var s := db.subnets[id].subnet;
      match ResolveNetwork(db.subnets, s)
      case Done(n) => if n != networkUuid then Failed(SubnetNotInNetwork) else Done(s)
      case Failed(e) => Failed(e)
      case NeverReturns => NeverReturns
  }

  function ListByNetwork(db: Db, networkUuid: Uuid): Reply<set<Uuid>> {
    if networkUuid !in db.networks then Failed(NetworkNotFound)
    else Done(set id | id in db.subnets && db.subnets[id].networkUuid == networkUuid)
  }

  function ResolveParentContext(db: Db, parent: Parent): Reply<Context> {
    match parent.kind
    case NetworkKind =>
      if parent.uuid !in db.networks then Failed(ParentNotFound) else Done(Context(parent.uuid, None))
    case SubnetKind =>
      if parent.uuid !in db.subnets then Failed(ParentNotFound)
      else
        var s := db.subnets[parent.uuid].subnet;
        if s.family != IPv4Family then Failed(IPv6NotSupported)
        else (
          match ParseIPv4Prefix(IPv4(s.address), s.prefix)
          case Err(_) => Failed(StoreFailure)
          case Ok(prefix) =>
            match ResolveNetwork(db.subnets, s)
            case Done(n) => Done(Context(n, Some(prefix)))
            case Failed(e) => Failed(e)
            case NeverReturns => NeverReturns
        )
    case _ => Failed(InvalidSubnetParent)
  }

  // ---- creating a subnet -------------------------------------------------------------

  /** lockParentForCreate */
  predicate ParentExists(db: Db, parent: Parent) {
    match parent.kind
    case NetworkKind => parent.uuid in db.networks
    case SubnetKind => parent.uuid in db.subnets
    case _ => false
  }

  /** Every IPv4 sibling has a length subnetsToPrefixes accepts. */
  predicate SiblingsParse(rows: Rows, parent: Parent) {
    forall id | id in ChildrenOf(rows, parent) && rows[id].subnet.family == IPv4Family ::
      1 <= rows[id].subnet.prefix <= 32
  }

  /** The blocks subnetsToPrefixes reads from the sibling rows. */
  function SiblingBlocks(rows: Rows, parent: Parent): set<Prefix> {
    set id | id in ChildrenOf(rows, parent) && rows[id].subnet.family == IPv4Family
      :: Masked(Block(rows[id].subnet))
  }

  /** The block to create: the given one, or the first free one; None when the search never returns. */
  ghost function Candidate(ctx: Context, input: CreateInput, taken: set<Prefix>): Option<Result<Prefix, Error>> {
    match input.address
    case Text(t) =>
      (match ParseIPv4Prefix(t, input.prefixLen)
       case Ok(b) => Some(Ok(b))
       case Err(e) => Some(Err(ToError(e))))
    case Blank =>
      if input.parent.kind == NetworkKind then Some(Err(AddressRequired))
      else match ctx.parentPrefix
        case None => Some(Err(StoreFailure))
        case Some(p) =>
          match Allocation(p, input.prefixLen, taken)
          case Some(Ok(b)) => Some(Ok(b))
          case Some(Err(e)) => Some(Err(ToError(e)))
          case None => None
  }

  function NewSubnet(input: CreateInput, block: Prefix): Subnet {
    Subnet(Trim(input.name), Trim(input.description), block.bits, block.addr, IPv4Family, input.parent)
  }

  /** The part of Create that runs under the write lock, with a context read earlier. */
  ghost function CommitCreate(db: Db, ctx: Context, input: CreateInput, id: Uuid): Outcome<Subnet> {
    if !ParentExists(db, input.parent) then Outcome(db, Failed(ParentNotFound))
    else if NameTaken(db.subnets, ctx.networkUuid, Trim(input.name)) then Outcome(db, Failed(SubnetNameTaken))
    else if !SiblingsParse(db.subnets, input.parent) then Outcome(db, Failed(StoreFailure))
    else
      var taken := SiblingBlocks(db.subnets, input.parent);
      match Candidate(ctx, input, taken)
      case None => Outcome(db, NeverReturns)
      case Some(Err(e)) => Outcome(db, Failed(e))
      case Some(Ok(block)) =>
        match Verdict(block, ctx.parentPrefix, taken)
        case Some(e) => Outcome(db, Failed(ToError(e)))
        case None =>
          var s := NewSubnet(input, block);
          match InsertSubnet(db, id, s)
          case Err(e) => Outcome(db, Failed(e))
          case Ok(after) => Outcome(after, Done(s))
  }

  /** The checks Create makes before it looks at the store. */
  function CreateRefusal(input: CreateInput): Option<Error> {
    if Trim(input.name) == "" then Some(InvalidSubnetName)
    else if input.parent.kind == NoKind || input.parent.uuid == NIL then Some(InvalidSubnetParent)
    else if input.family.Some? && input.family.value != IPv4Family then Some(IPv6NotSupported)
    else None
  }

  ghost function CreateSubnet(db: Db, input: CreateInput, id: Uuid): Outcome<Subnet> {
    match CreateRefusal(input)
    case Some(e) => Outcome(db, Failed(e))
    case None =>
      match ResolveParentContext(db, input.parent)
      case Failed(e) => Outcome(db, Failed(e))
      case NeverReturns => Outcome(db, NeverReturns)
      case Done(ctx) => CommitCreate(db, ctx, input, id)
  }

  ghost function CreateInNetwork(db: Db, networkUuid: Uuid, parent: Parent, input: CreateInput, id: Uuid): Outcome<Subnet> {
    match parent.kind
    case NetworkKind =>
      if parent.uuid != networkUuid then Outcome(db, Failed(SubnetNotInNetwork))
      else CreateSubnet(db, input.(parent := parent), id)
    case SubnetKind =>
      (match EnsureInNetwork(db, networkUuid, parent.uuid)
       case Failed(e) => Outcome(db, Failed(e))
       case NeverReturns => Outcome(db, NeverReturns)
       case Done(_) => CreateSubnet(db, input.(parent := parent), id))
    case _ => Outcome(db, Failed(InvalidSubnetParent))
  }

  // ---- updating and deleting a subnet ------------------------------------------------

  function UpdateDescription(db: Db, id: Uuid, description: string): Outcome<Subnet> {
    if id !in db.subnets then Outcome(db, Failed(SubnetNotFound))
    else
      var s := db.subnets[id].subnet.(description := Trim(description));
      match UpdateSubnet(db, id, s)
      case Err(e) => Outcome(db, Failed(e))
      case Ok(after) => Outcome(after, Done(s))
  }

  function RemoveSubnet(db: Db, id: Uuid): Outcome<()> {
    if id !in db.subnets then Outcome(db, Failed(SubnetNotFound))
    else if ChildrenOf(db.subnets, Parent(SubnetKind, id)) != {} then Outcome(db, Failed(SubnetHasChildren))
    else match DeleteSubnet(db, id)
      case Err(e) => Outcome(db, Failed(e))
      case Ok(after) => Outcome(after, Done(()))
  }

  // ---- networks ----------------------------------------------------------------------

  /** The first fault validateTags reports. */
  function TagFault(tags: seq<Tag>, seen: set<string>): Option<Error> {
    if tags == [] then None
    else
      var key := Trim(tags[0].key);
      if key == "" then Some(TagKeyRequired)
      else if key in seen then Some(DuplicateTagKey)
      else TagFault(tags[1..], seen + {key})
  }

  function AddNetwork(db: Db, name: string, description: string, tags: seq<Tag>, id: Uuid): Outcome<Network> {
    if Trim(name) == "" then Outcome(db, Failed(InvalidNetworkName))
    else match TagFault(tags, {})
      case Some(e) => Outcome(db, Failed(e))
      case None =>
        if exists n | n in db.networks :: db.networks[n].name == Trim(name)
        then Outcome(db, Failed(NetworkNameTaken))
        else
          var n := Network(Trim(name), Trim(description));
          match InsertNetwork(db, id, n)
          case Err(e) => Outcome(db, Failed(e))
          case Ok(after) => Outcome(after, Done(n))
  }

  function ChangeNetwork(db: Db, id: Uuid, name: string, description: string, tags: seq<Tag>): Outcome<Network> {
    if id !in db.networks then Outcome(db, Failed(NetworkNotFound))
    else if Trim(name) == "" then Outcome(db, Failed(InvalidNetworkName))
    else match TagFault(tags, {})
      case Some(e) => Outcome(db, Failed(e))
      case None =>
        if Trim(name) != db.networks[id].name && NetworkNameUsed(db.networks, Trim(name), id)
        then Outcome(db, Failed(NetworkNameTaken))
        else
          var n := Network(Trim(name), Trim(description));
          match UpdateNetwork(db, id, n)
          case Err(e) => Outcome(db, Failed(e))
          case Ok(after) => Outcome(after, Done(n))
  }

  function RemoveNetwork(db: Db, id: Uuid): Outcome<()> {
    if id !in db.networks then Outcome(db, Failed(NetworkNotFound))
    else if ChildrenOf(db.subnets, Parent(NetworkKind, id)) != {} then Outcome(db, Failed(NetworkHasChildren))
    else match DeleteNetwork(db, id)
      case Err(e) => Outcome(db, Failed(e))
      case Ok(after) => Outcome(after, Done(()))
  }

  // ---- runs --------------------------------------------------------------------------

  datatype Call =
    | CallAddNetwork(name: string, description: string, tags: seq<Tag>, id: Uuid)
    | CallChangeNetwork(id: Uuid, name: string, description: string, tags: seq<Tag>)
    | CallRemoveNetwork(id: Uuid)
    | CallCreate(input: CreateInput, id: Uuid)
    | CallCreateInNetwork(networkUuid: Uuid, parent: Parent, input: CreateInput, id: Uuid)
    | CallUpdate(id: Uuid, description: string)
    | CallUpdateInNetwork(networkUuid: Uuid, id: Uuid, description: string)
    | CallRemove(id: Uuid)
    | CallRemoveInNetwork(networkUuid: Uuid, id: Uuid)

  ghost function Apply(db: Db, call: Call): Db {
    match call
    case CallAddNetwork(name, description, tags, id) => AddNetwork(db, name, description, tags, id).db
    case CallChangeNetwork(id, name, description, tags) => ChangeNetwork(db, id, name, description, tags).db
    case CallRemoveNetwork(id) => RemoveNetwork(db, id).db
    case CallCreate(input, id) => CreateSubnet(db, input, id).db
    case CallCreateInNetwork(n, parent, input, id) => CreateInNetwork(db, n, parent, input, id).db
    case CallUpdate(id, description) => UpdateDescription(db, id, description).db
    case CallUpdateInNetwork(n, id, description) =>
      if EnsureInNetwork(db, n, id).Done? then UpdateDescription(db, id, description).db else db
    case CallRemove(id) => RemoveSubnet(db, id).db
    case CallRemoveInNetwork(n, id) =>
      if EnsureInNetwork(db, n, id).Done? then RemoveSubnet(db, id).db else db
  }

  /** The call comes back: no search for an automatic address runs forever. */
  ghost predicate Returns(db: Db, call: Call) {
    match call
    case CallCreate(input, id) => !CreateSubnet(db, input, id).reply.NeverReturns?
    case CallCreateInNetwork(n, parent, input, id) => !CreateInNetwork(db, n, parent, input, id).reply.NeverReturns?
    case _ => true
  }

  ghost function Run(db: Db, calls: seq<Call>): Db
    decreases |calls|
  {
    if calls == [] then db else Apply(Run(db, calls[..|calls| - 1]), calls[|calls| - 1])
  }

  const EMPTY: Db := Db(map[], map[])

  // ---- each write keeps the invariant ------------------------------------------------

  lemma InsertKeepsForest(rows: Rows, id: Uuid, row: Row)
    requires Forest(rows) && id !in rows
    requires forall c :: c in rows ==> rows[c].subnet.parent != Parent(SubnetKind, id)
    requires row.subnet.parent != Parent(SubnetKind, id)
    requires RowFits(rows[id := row], id)
    ensures Forest(rows[id := row])
  {
    var after := rows[id := row];
    forall c | c in after
      ensures RowFits(after, c)
    {
      if c != id {
        assert RowFits(rows, c);
      }
    }
    var rank :| Ranked(rows, rank);
    var p := row.subnet.parent.uuid;
    var rank' := rank[id := if p in rows then rank[p] + 1 else 0];
    assert Ranked(after, rank') by {
      forall c | IsNested(after, c) && after[c].subnet.parent.uuid in after
        ensures rank'[after[c].subnet.parent.uuid] < rank'[c]
      {
        assert after[c].subnet.parent != Parent(SubnetKind, id);
        if c != id {
          assert IsNested(rows, c);
        }
      }
    }
  }

  lemma InsertKeepsSiblings(rows: Rows, id: Uuid, row: Row)
    requires SiblingsDisjoint(rows) && id !in rows
    requires forall c :: c in ChildrenOf(rows, row.subnet.parent) ==> Disjoint(Block(row.subnet), Block(rows[c].subnet))
    ensures SiblingsDisjoint(rows[id := row])
  {
    var after := rows[id := row];
    forall a, b | Siblings(after, a, b)
      ensures Disjoint(Block(after[a].subnet), Block(after[b].subnet))
    {
      if a == id {
        assert b in ChildrenOf(rows, row.subnet.parent);
      } else if b == id {
        assert a in ChildrenOf(rows, row.subnet.parent);
      } else {
        assert Siblings(rows, a, b);
      }
    }
  }

  lemma InsertKeepsNames(rows: Rows, id: Uuid, row: Row)
    requires NamesUnique(rows) && id !in rows && !NameTaken(rows, row.networkUuid, row.subnet.name)
    ensures NamesUnique(rows[id := row])
  {
    var after := rows[id := row];
    forall a, b
      ensures !Homonyms(after, a, b)
    {
      assert !Homonyms(rows, a, b);
    }
  }

  /** What Create knows about a parent, if that parent is still a row. */
  ghost predicate ContextFits(rows: Rows, ctx: Context, parent: Parent) {
    match parent.kind
    case NetworkKind => ctx == Context(parent.uuid, None)
    case SubnetKind =>
      ctx.parentPrefix.Some? && WellFormed(ctx.parentPrefix.value) &&
      (parent.uuid in rows ==>
        ctx == Context(rows[parent.uuid].networkUuid, Some(Block(rows[parent.uuid].subnet))))
    case _ => false
  }

  lemma ChildBlockIsMasked(rows: Rows, parent: Parent, id: Uuid)
    requires AllFit(rows) && id in ChildrenOf(rows, parent)
    ensures Masked(Block(rows[id].subnet)) == Block(rows[id].subnet)
    ensures WellFormed(Block(rows[id].subnet)) && rows[id].subnet.family == IPv4Family
    ensures Block(rows[id].subnet) in SiblingBlocks(rows, parent)
  {
    assert RowFits(rows, id);
    MaskedIsWellFormed(Block(rows[id].subnet));
  }

  /** A stored block is read back for the sibling check as the block that was stored. */
  lemma TakenIsChild(rows: Rows, parent: Parent, b: Prefix) returns (id: Uuid)
    requires AllFit(rows) && b in SiblingBlocks(rows, parent)
    ensures id in ChildrenOf(rows, parent) && b == Block(rows[id].subnet) && WellFormed(b)
  {
    id :| id in ChildrenOf(rows, parent) && rows[id].subnet.family == IPv4Family
          && b == Masked(Block(rows[id].subnet));
    ChildBlockIsMasked(rows, parent, id);
  }

  lemma SiblingBlocksAreValid(rows: Rows, parent: Parent)
    requires AllFit(rows)
    ensures SiblingsParse(rows, parent) && AllWellFormed(SiblingBlocks(rows, parent))
  {
    forall id | id in ChildrenOf(rows, parent)
      ensures WellFormed(Block(rows[id].subnet))
    {
      ChildBlockIsMasked(rows, parent, id);
    }
    forall b | b in SiblingBlocks(rows, parent)
      ensures WellFormed(b)
    {
      var id := TakenIsChild(rows, parent, b);
    }
  }

  /** A block the search proposes always passes the validation that follows it. */
  lemma AllocationPassesValidation(parent: Prefix, prefixLen: int, taken: set<Prefix>)
    requires Allocation(parent, prefixLen, taken).Some? && Allocation(parent, prefixLen, taken).value.Ok?
    ensures Verdict(Allocation(parent, prefixLen, taken).value.value, Some(parent), taken) == None
  {
    var b := Allocation(parent, prefixLen, taken).value.value;
    SetForms(b, parent);
    forall s | s in taken
      ensures Addresses(b) !! Addresses(s)
    {
      SetForms(b, s);
    }
  }

  /** A chosen block is well-formed. */
  lemma CandidateIsWellFormed(ctx: Context, input: CreateInput, taken: set<Prefix>)
    requires Candidate(ctx, input, taken).Some? && Candidate(ctx, input, taken).value.Ok?
    ensures WellFormed(Candidate(ctx, input, taken).value.value)
  {
  }

  /** The path through the locked part of Create that inserts a row. */
  lemma CommitPath(db: Db, ctx: Context, input: CreateInput, id: Uuid) returns (block: Prefix)
    requires CommitCreate(db, ctx, input, id).reply.Done?
    ensures var taken := SiblingBlocks(db.subnets, input.parent);
            Candidate(ctx, input, taken) == Some(Ok(block)) && Verdict(block, ctx.parentPrefix, taken) == None
    ensures ParentExists(db, input.parent) && !NameTaken(db.subnets, ctx.networkUuid, Trim(input.name))
    ensures var s := NewSubnet(input, block);
            CommitCreate(db, ctx, input, id).reply == Done(s)
            && InsertSubnet(db, id, s) == Ok(CommitCreate(db, ctx, input, id).db)
  {
    block := Candidate(ctx, input, SiblingBlocks(db.subnets, input.parent)).value.value;
  }

  /** A validated block lies inside the parent prefix and clear of the taken blocks. */
  lemma ValidatedBlock(block: Prefix, parent: Option<Prefix>, taken: set<Prefix>)
    requires Verdict(block, parent, taken) == None
    ensures parent.Some? ==> parent.value.bits <= block.bits && Inside(block, parent.value)
    ensures forall t :: t in taken ==> Disjoint(block, t)
  {
    if parent.Some? {
      SetForms(block, parent.value);
    }
    forall t | t in taken
      ensures Disjoint(block, t)
    {
      SetForms(block, t);
    }
  }

  /** What a successful locked create has established about the new row. */
  ghost predicate FreshRowFits(db: Db, ctx: Context, parent: Parent, id: Uuid, s: Subnet) {
    id !in db.subnets && ctx.networkUuid in db.networks && ParentExists(db, parent)
    && s.parent == parent && WellFormed(Block(s)) && s.family == IPv4Family
    && (ctx.parentPrefix.Some? ==>
          ctx.parentPrefix.value.bits <= s.prefix && Inside(Block(s), ctx.parentPrefix.value))
    && (forall c :: c in ChildrenOf(db.subnets, parent) ==> Disjoint(Block(s), Block(db.subnets[c].subnet)))
    && !NameTaken(db.subnets, ctx.networkUuid, s.name)
  }

  lemma CreatedFits(db: Db, ctx: Context, input: CreateInput, id: Uuid)
    requires AllFit(db.subnets) && ContextFits(db.subnets, ctx, input.parent)
    requires CommitCreate(db, ctx, input, id).reply.Done?
    ensures var s := CommitCreate(db, ctx, input, id).reply.value;
            CommitCreate(db, ctx, input, id).db == db.(subnets := db.subnets[id := Row(ctx.networkUuid, s)])
            && s.name == Trim(input.name) && FreshRowFits(db, ctx, input.parent, id, s)
  {
    var taken := SiblingBlocks(db.subnets, input.parent);
    var block := CommitPath(db, ctx, input, id);
    CandidateIsWellFormed(ctx, input, taken);
    ValidatedBlock(block, ctx.parentPrefix, taken);
    forall c | c in ChildrenOf(db.subnets, input.parent)
      ensures Block(db.subnets[c].subnet) in taken
    {
      ChildBlockIsMasked(db.subnets, input.parent, c);
    }
  }

  lemma CommitCreateKeepsInv(db: Db, ctx: Context, input: CreateInput, id: Uuid)
    requires Inv(db) && ContextFits(db.subnets, ctx, input.parent)
    ensures Inv(CommitCreate(db, ctx, input, id).db)
  {
    if CommitCreate(db, ctx, input, id).reply.Done? {
      CreatedFits(db, ctx, input, id);
      var row := Row(ctx.networkUuid, CommitCreate(db, ctx, input, id).reply.value);
      InsertedRowFits(db.subnets, ctx, id, row);
      InsertKeepsForest(db.subnets, id, row);
      InsertKeepsSiblings(db.subnets, id, row);
      InsertKeepsNames(db.subnets, id, row);
      var after := db.subnets[id := row];
      assert Closed(after) by {
        forall c | IsNested(after, c)
          ensures after[c].subnet.parent.uuid in after
        {
          if c != id {
            assert IsNested(db.subnets, c);
          }
        }
      }
    }
  }

  /** In a closed table no row names a uuid that is not there as its parent. */
  lemma InsertedRowFits(rows: Rows, ctx: Context, id: Uuid, row: Row)
    requires Closed(rows) && id !in rows && ContextFits(rows, ctx, row.subnet.parent)
    requires row.networkUuid == ctx.networkUuid && WellFormed(Block(row.subnet)) && row.subnet.family == IPv4Family
    requires row.subnet.parent.kind == SubnetKind ==> row.subnet.parent.uuid in rows
    requires ctx.parentPrefix.Some? ==>
               ctx.parentPrefix.value.bits <= row.subnet.prefix && Inside(Block(row.subnet), ctx.parentPrefix.value)
    ensures RowFits(rows[id := row], id)
    ensures forall c :: c in rows ==> rows[c].subnet.parent != Parent(SubnetKind, id)
  {
    forall c | c in rows
      ensures rows[c].subnet.parent != Parent(SubnetKind, id)
    {
      if rows[c].subnet.parent.kind == SubnetKind {
        assert IsNested(rows, c);
      }
    }
  }

  /** In a consistent table the parent context is the parent row's block and network. */
  lemma ContextIsRight(db: Db, parent: Parent)
    requires Inv(db)
    ensures var r := ResolveParentContext(db, parent);
            !r.NeverReturns? && (r.Done? ==> ContextFits(db.subnets, r.value, parent) && ParentExists(db, parent))
    ensures parent.kind == SubnetKind && parent.uuid in db.subnets ==> ResolveParentContext(db, parent).Done?
  {
    if parent.kind == SubnetKind && parent.uuid in db.subnets {
      assert RowFits(db.subnets, parent.uuid);
      ReparseIsIdentity(Block(db.subnets[parent.uuid].subnet));
      WalkAgrees(db.subnets, parent.uuid, |db.subnets|);
    }
  }

  lemma CreateKeepsInv(db: Db, input: CreateInput, id: Uuid)
    requires Inv(db)
    ensures Inv(CreateSubnet(db, input, id).db)
  {
    ContextIsRight(db, input.parent);
    var r := ResolveParentContext(db, input.parent);
    if r.Done? {
      CommitCreateKeepsInv(db, r.value, input, id);
    }
  }

  /** Rewriting a row with another description. */
  lemma RedescribeKeeps(rows: Rows, id: Uuid, description: string)
    requires id in rows && Forest(rows) && SiblingsDisjoint(rows) && NamesUnique(rows)
    ensures var row := rows[id].(subnet := rows[id].subnet.(description := description));
            Forest(rows[id := row]) && SiblingsDisjoint(rows[id := row]) && NamesUnique(rows[id := row])
            && (Closed(rows) ==> Closed(rows[id := row]))
  {
    var row := rows[id].(subnet := rows[id].subnet.(description := description));
    SubTableIsForest(rows, rows[id := row]);
    SubTableIsTidy(rows, rows[id := row]);
  }

  /** The rows of after are rows of the other table, apart from their descriptions. */
  ghost predicate SubTable(after: Rows, rows: Rows) {
    after.Keys <= rows.Keys && forall c :: c in after ==> SameCore(after[c], rows[c])
  }

  predicate SameCore(r: Row, q: Row) {
    r.networkUuid == q.networkUuid && r.subnet.(description := "") == q.subnet.(description := "")
  }

  lemma SubTableIsForest(rows: Rows, after: Rows)
    requires SubTable(after, rows) && Forest(rows)
    ensures Forest(after)
    ensures Closed(rows) && after.Keys == rows.Keys ==> Closed(after)
  {
    forall c | c in after
      ensures RowFits(after, c)
    {
      assert RowFits(rows, c);
      SameRow(rows, after, c);
      SameRow(rows, after, after[c].subnet.parent.uuid);
    }
    var rank :| Ranked(rows, rank);
    assert Ranked(after, rank) by {
      forall c | IsNested(after, c) && after[c].subnet.parent.uuid in after
        ensures rank[after[c].subnet.parent.uuid] < rank[c]
      {
        SameRow(rows, after, c);
      }
    }
    if Closed(rows) && after.Keys == rows.Keys {
      forall c | IsNested(after, c)
        ensures after[c].subnet.parent.uuid in after
      {
        SameRow(rows, after, c);
      }
    }
  }

  lemma SubTableIsTidy(rows: Rows, after: Rows)
    requires SubTable(after, rows) && SiblingsDisjoint(rows) && NamesUnique(rows)
    ensures SiblingsDisjoint(after) && NamesUnique(after)
  {
    forall a, b
      ensures !Homonyms(after, a, b)
      ensures Siblings(after, a, b) ==> Disjoint(Block(after[a].subnet), Block(after[b].subnet))
    {
      SameRow(rows, after, a);
      SameRow(rows, after, b);
      assert !Homonyms(rows, a, b);
      assert Siblings(after, a, b) ==> Siblings(rows, a, b);
    }
  }

  lemma SameRow(rows: Rows, after: Rows, c: Uuid)
    requires SubTable(after, rows)
    ensures c in after ==> after[c].networkUuid == rows[c].networkUuid && after[c].subnet.family == rows[c].subnet.family
    ensures c in after ==>
              after[c].subnet.parent == rows[c].subnet.parent && Block(after[c].subnet) == Block(rows[c].subnet)
              && after[c].subnet.name == rows[c].subnet.name
    ensures IsNested(after, c) ==> IsNested(rows, c)
  {
    if c in after {
      var x, y := after[c].subnet, rows[c].subnet;
      assert x.(description := "").parent == x.parent && y.(description := "").parent == y.parent;
      assert x.(description := "").name == x.name && y.(description := "").name == y.name;
      assert x.(description := "").family == x.family && y.(description := "").family == y.family;
    }
  }

  lemma OwnNameIsFree(rows: Rows, id: Uuid)
    requires NamesUnique(rows) && id in rows
    ensures !NameTakenByOther(rows, rows[id].networkUuid, rows[id].subnet.name, id)
  {
    forall o | o in rows && o != id
      ensures !(rows[o].networkUuid == rows[id].networkUuid && rows[o].subnet.name == rows[id].subnet.name)
    {
      assert !Homonyms(rows, o, id);
    }
  }

  lemma UpdateKeepsInv(db: Db, id: Uuid, description: string)
    requires Inv(db)
    ensures Inv(UpdateDescription(db, id, description).db)
    ensures id in db.subnets ==> UpdateDescription(db, id, description).reply.Done?
    ensures id in db.subnets ==>
              UpdateDescription(db, id, description).db.subnets
              == db.subnets[id := db.subnets[id].(subnet := db.subnets[id].subnet.(description := Trim(description)))]
  {
    if id in db.subnets {
      assert RowFits(db.subnets, id);
      RedescribeKeeps(db.subnets, id, Trim(description));
      OwnNameIsFree(db.subnets, id);
      assert db.subnets[id].subnet.parent.kind == SubnetKind ==> IsNested(db.subnets, id);
    }
  }

  /** Rows may be removed freely as far as fitting, ranking, siblings and names go. */
  lemma RemovalKeeps(rows: Rows, gone: set<Uuid>)
    requires Forest(rows) && SiblingsDisjoint(rows) && NamesUnique(rows)
    ensures Forest(rows - gone) && SiblingsDisjoint(rows - gone) && NamesUnique(rows - gone)
  {
    SubTableIsForest(rows, rows - gone);
    SubTableIsTidy(rows, rows - gone);
  }

  lemma RemoveKeepsInv(db: Db, id: Uuid)
    requires Inv(db)
    ensures Inv(RemoveSubnet(db, id).db)
  {
    if RemoveSubnet(db, id).reply.Done? {
      RemovalKeeps(db.subnets, {id});
      forall c | IsNested(db.subnets - {id}, c)
        ensures db.subnets[c].subnet.parent.uuid in db.subnets - {id}
      {
        assert IsNested(db.subnets, c);
        assert c !in ChildrenOf(db.subnets, Parent(SubnetKind, id));
      }
    }
  }

  /** A network without a direct child has no subnet at all. */
  lemma {:induction false} ChildlessNetworkIsEmpty(rows: Rows, rank: map<Uuid, nat>, n: Uuid, id: Uuid)
    requires AllFit(rows) && Ranked(rows, rank) && Closed(rows)
    requires ChildrenOf(rows, Parent(NetworkKind, n)) == {} && id in rows
    ensures rows[id].networkUuid != n
    decreases rank[id]
  {
    assert RowFits(rows, id);
    assert id !in ChildrenOf(rows, Parent(NetworkKind, n));
    if rows[id].subnet.parent.kind == SubnetKind {
      assert IsNested(rows, id);
      ChildlessNetworkIsEmpty(rows, rank, n, rows[id].subnet.parent.uuid);
    }
  }

  /** NetworkService.Delete looks at direct children only, yet the cascade never removes a row. */
  lemma NetworkDeleteCascadesNothing(db: Db, id: Uuid)
    requires Inv(db)
    ensures RemoveNetwork(db, id).reply.Done? <==> id in db.networks && Cascade(db.subnets, id) == {}
    ensures RemoveNetwork(db, id).db.subnets == db.subnets
    ensures RemoveNetwork(db, id).reply.Done? ==> RemoveNetwork(db, id).db.networks == db.networks - {id}
  {
    if ChildrenOf(db.subnets, Parent(NetworkKind, id)) == {} {
      var rank :| Ranked(db.subnets, rank);
      forall c | c in db.subnets
        ensures db.subnets[c].networkUuid != id
      {
        ChildlessNetworkIsEmpty(db.subnets, rank, id, c);
      }
      assert Cascade(db.subnets, id) == {};
      assert db.subnets - {} == db.subnets;
    } else {
      var c :| c in ChildrenOf(db.subnets, Parent(NetworkKind, id));
      assert RowFits(db.subnets, c);
      assert c in Cascade(db.subnets, id);
    }
  }

  lemma RemoveNetworkKeepsInv(db: Db, id: Uuid)
    requires Inv(db)
    ensures Inv(RemoveNetwork(db, id).db)
  {
    NetworkDeleteCascadesNothing(db, id);
    if RemoveNetwork(db, id).reply.Done? {
      forall c | c in db.subnets
        ensures db.subnets[c].networkUuid in db.networks - {id}
      {
        assert c !in Cascade(db.subnets, id);
      }
    }
  }

  lemma NetworkWriteKeepsInv(db: Db, networks: map<Uuid, Network>)
    requires Inv(db) && db.networks.Keys <= networks.Keys && NetworkNamesUnique(networks)
    ensures Inv(Db(networks, db.subnets))
  {
  }

  lemma AddNetworkKeepsInv(db: Db, name: string, description: string, tags: seq<Tag>, id: Uuid)
    requires Inv(db)
    ensures Inv(AddNetwork(db, name, description, tags, id).db)
  {
    NetworkWriteKeepsInv(db, AddNetwork(db, name, description, tags, id).db.networks);
  }

  lemma ChangeNetworkKeepsInv(db: Db, name: string, description: string, tags: seq<Tag>, id: Uuid)
    requires Inv(db)
    ensures Inv(ChangeNetwork(db, id, name, description, tags).db)
  {
    NetworkWriteKeepsInv(db, ChangeNetwork(db, id, name, description, tags).db.networks);
  }

  lemma CreateInNetworkIsCreate(db: Db, n: Uuid, parent: Parent, input: CreateInput, id: Uuid)
    ensures CreateInNetwork(db, n, parent, input, id).db == db
         || CreateInNetwork(db, n, parent, input, id) == CreateSubnet(db, input.(parent := parent), id)
  {
  }

  lemma CreateInNetworkKeepsInv(db: Db, n: Uuid, parent: Parent, input: CreateInput, id: Uuid)
    requires Inv(db)
    ensures Inv(CreateInNetwork(db, n, parent, input, id).db)
  {
    CreateInNetworkIsCreate(db, n, parent, input, id);
    CreateKeepsInv(db, input.(parent := parent), id);
  }

  lemma ApplyNetworkKeepsInv(db: Db, call: Call)
    requires Inv(db) && (call.CallAddNetwork? || call.CallChangeNetwork? || call.CallRemoveNetwork?)
    ensures Inv(Apply(db, call))
  {
    match call {
      case CallAddNetwork(name, description, tags, id) => AddNetworkKeepsInv(db, name, description, tags, id);
      case CallChangeNetwork(id, name, description, tags) => ChangeNetworkKeepsInv(db, name, description, tags, id);
      case CallRemoveNetwork(id) => RemoveNetworkKeepsInv(db, id);
    }
  }

  lemma ApplyCreateKeepsInv(db: Db, call: Call, after: Db)
    requires Inv(db) && (call.CallCreate? || call.CallCreateInNetwork?) && after == Apply(db, call)
    ensures Inv(after)
  {
    if call.CallCreate? {
      CreateKeepsInv(db, call.input, call.id);
    } else {
      CreateInNetworkKeepsInv(db, call.networkUuid, call.parent, call.input, call.id);
    }
  }

  lemma ApplyKeepsInv(db: Db, call: Call)
    requires Inv(db)
    ensures Inv(Apply(db, call))
  {
    if call.CallCreate? || call.CallCreateInNetwork? {
      ApplyCreateKeepsInv(db, call, Apply(db, call));
    } else if call.CallUpdate? || call.CallUpdateInNetwork? {
      ApplyUpdateKeepsInv(db, call);
    } else if call.CallRemove? || call.CallRemoveInNetwork? {
      ApplyRemoveKeepsInv(db, call);
    } else {
      ApplyNetworkKeepsInv(db, call);
    }
  }

  lemma ApplyUpdateKeepsInv(db: Db, call: Call)
    requires Inv(db) && (call.CallUpdate? || call.CallUpdateInNetwork?)
    ensures Inv(Apply(db, call))
  {
    assert Apply(db, call) == db || Apply(db, call) == UpdateDescription(db, call.id, call.description).db;
    UpdateKeepsInv(db, call.id, call.description);
  }

  lemma ApplyRemoveKeepsInv(db: Db, call: Call)
    requires Inv(db) && (call.CallRemove? || call.CallRemoveInNetwork?)
    ensures Inv(Apply(db, call))
  {
    assert Apply(db, call) == db || Apply(db, call) == RemoveSubnet(db, call.id).db;
    RemoveKeepsInv(db, call.id);
  }

  /** Every sequence of calls keeps the invariant. */
  lemma {:induction false} RunKeepsInv(db: Db, calls: seq<Call>)
    requires Inv(db)
    ensures Inv(Run(db, calls))
    decreases |calls|
  {
    if calls != [] {
      RunKeepsInv(db, calls[..|calls| - 1]);
      ApplyKeepsInv(Run(db, calls[..|calls| - 1]), calls[|calls| - 1]);
    }
  }

  /** The invariant holds in every state reachable from an empty store. */
  lemma Reachable(calls: seq<Call>)
    ensures Inv(Run(EMPTY, calls))
  {
    var none: map<Uuid, nat> := map[];
    assert Ranked(EMPTY.subnets, none);
    RunKeepsInv(EMPTY, calls);
  }

  // ---- what follows in every reachable state -----------------------------------------

  /** In every reachable state, two subnets of one network share an address if and only if one
      is an ancestor of, or equal to, the other. */
  lemma ReachableOverlap(calls: seq<Call>, a: Uuid, b: Uuid)
    requires var rows := Run(EMPTY, calls).subnets;
             a in rows && b in rows && rows[a].networkUuid == rows[b].networkUuid
    ensures var rows := Run(EMPTY, calls).subnets;
            SharesAddress(rows, a, b) <==> AncestorOrSelf(rows, a, b) || AncestorOrSelf(rows, b, a)
  {
    var rows := Run(EMPTY, calls).subnets;
    Reachable(calls);
    WalkAgrees(rows, a, |rows|);
    WalkAgrees(rows, b, |rows|);
    OverlapIffRelated(rows, a, b);
  }

  /** In every reachable state the recursive walk from a subnet ends, at its network_uuid, so the
      listing of an existing network is exactly the set of subnets the scoped calls accept. */
  lemma ReachableListing(calls: seq<Call>, n: Uuid, id: Uuid)
    ensures var db := Run(EMPTY, calls);
            id in db.subnets ==>
              ResolveNetwork(db.subnets, db.subnets[id].subnet) == Done(db.subnets[id].networkUuid)
    ensures var db := Run(EMPTY, calls);
            n in db.networks ==>
              ListByNetwork(db, n).Done?
              && (id in ListByNetwork(db, n).value <==> EnsureInNetwork(db, n, id).Done?)
  {
    var db := Run(EMPTY, calls);
    Reachable(calls);
    if id in db.subnets {
      WalkAgrees(db.subnets, id, |db.subnets|);
    }
  }

  /** In every reachable state deleting a network removes no subnet row, and succeeds exactly when
      the network exists and is empty. */
  lemma ReachableNetworkDelete(calls: seq<Call>, id: Uuid)
    ensures var db := Run(EMPTY, calls);
            RemoveNetwork(db, id).db.subnets == db.subnets
            && (RemoveNetwork(db, id).reply.Done? <==> id in db.networks && Cascade(db.subnets, id) == {})
  {
    Reachable(calls);
    NetworkDeleteCascadesNothing(Run(EMPTY, calls), id);
  }

  /** The blocks of a list of rows. */
  function BlocksOf(rows: Rows, ids: seq<Uuid>): (r: seq<Prefix>)
    requires forall i :: 0 <= i < |ids| ==> ids[i] in rows
    ensures |r| == |ids| && forall i :: 0 <= i < |r| ==> r[i] == Block(rows[ids[i]].subnet)
  {
    seq(|ids|, i requires 0 <= i < |ids| => Block(rows[ids[i]].subnet))
  }

  /** ids lists children of the parent, none twice. */
  ghost predicate ListsChildren(rows: Rows, parent: Parent, ids: seq<Uuid>) {
    (forall i :: 0 <= i < |ids| ==> ids[i] in ChildrenOf(rows, parent))
    && (forall i, j :: 0 <= i < j < |ids| ==> ids[i] != ids[j])
  }

  lemma ChildBlocksDisjoint(rows: Rows, parent: Parent, ids: seq<Uuid>)
    requires SiblingsDisjoint(rows) && ListsChildren(rows, parent, ids)
    ensures PairwiseDisjoint(BlocksOf(rows, ids))
  {
    forall i, j | 0 <= i < j < |ids|
      ensures Disjoint(Block(rows[ids[i]].subnet), Block(rows[ids[j]].subnet))
    {
      assert Siblings(rows, ids[i], ids[j]);
    }
  }

  lemma ChildrenFitIn(rows: Rows, parent: Parent, ids: seq<Uuid>, lo: nat, n: nat)
    requires AllFit(rows) && SiblingsDisjoint(rows) && ListsChildren(rows, parent, ids)
    requires forall c :: c in ChildrenOf(rows, parent) ==>
               lo <= rows[c].subnet.address && rows[c].subnet.address + Size(Block(rows[c].subnet)) <= lo + n
    ensures TotalSize(BlocksOf(rows, ids)) <= n
  {
    var blocks := BlocksOf(rows, ids);
    ChildBlocksDisjoint(rows, parent, ids);
    CoveredCard(blocks);
    CoveredWithin(blocks, lo, n);
    CardSubset(Covered(blocks), Interval(lo, n));
  }

  /** Conservation over whole runs: the children of a subnet add up to at most its own size, the
      direct children of a network to at most 2^32. */
  lemma ReachableConservation(calls: seq<Call>, parent: Parent, ids: seq<Uuid>)
    requires ListsChildren(Run(EMPTY, calls).subnets, parent, ids)
    ensures var rows := Run(EMPTY, calls).subnets;
            parent.kind == SubnetKind && ids != [] ==>
              parent.uuid in rows && TotalSize(BlocksOf(rows, ids)) <= Size(Block(rows[parent.uuid].subnet))
    ensures TotalSize(BlocksOf(Run(EMPTY, calls).subnets, ids)) <= WORD_SIZE
  {
    var rows := Run(EMPTY, calls).subnets;
    Reachable(calls);
    forall c | c in ChildrenOf(rows, parent)
      ensures rows[c].subnet.address + Size(Block(rows[c].subnet)) <= WORD_SIZE
    {
      assert RowFits(rows, c);
      EndsInRange(Block(rows[c].subnet));
    }
    ChildrenFitIn(rows, parent, ids, 0, WORD_SIZE);
    if parent.kind == SubnetKind && ids != [] {
      assert ids[0] in ChildrenOf(rows, parent);
      assert IsNested(rows, ids[0]);
      var p := Block(rows[parent.uuid].subnet);
      forall c | c in ChildrenOf(rows, parent)
        ensures Inside(Block(rows[c].subnet), p)
      {
        assert RowFits(rows, c);
      }
      ChildrenFitIn(rows, parent, ids, p.addr, Size(p));
    }
  }

  lemma CoveredWithin(blocks: seq<Prefix>, lo: nat, n: nat)
    requires forall i :: 0 <= i < |blocks| ==> lo <= blocks[i].addr && blocks[i].addr + Size(blocks[i]) <= lo + n
    ensures Covered(blocks) <= Interval(lo, n)
  {
    forall a | a in Covered(blocks)
      ensures a in Interval(lo, n)
    {
      CoveredBy(blocks, a);
    }
  }

  /** validateTags accepts exactly the lists of non-blank keys that differ after trimming. */
  lemma {:induction false} TagsAccepted(tags: seq<Tag>, seen: set<string>)
    ensures TagFault(tags, seen) == None <==>
              (forall i :: 0 <= i < |tags| ==> Trim(tags[i].key) != "" && Trim(tags[i].key) !in seen)
              && (forall i, j :: 0 <= i < j < |tags| ==> Trim(tags[i].key) != Trim(tags[j].key))
  {
    if tags != [] {
      var key := Trim(tags[0].key);
      TagsAccepted(tags[1..], seen + {key});
      assert forall i :: 0 <= i < |tags| - 1 ==> tags[1..][i] == tags[i + 1];
      assert forall i :: 0 < i < |tags| ==> tags[i] == tags[1..][i - 1];
    }
  }
}
