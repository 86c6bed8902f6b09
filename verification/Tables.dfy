/** The networks and subnets tables, what the repository does to them, and the forest the
    subnet rows form.  A table is a map from uuid to row; a repository call is its effect on
    the map, with the UNIQUE, FOREIGN KEY and ON DELETE CASCADE clauses of the migrations.
 */
module Tables {
  import opened Common
  import opened Words
  import opened Blocks

  type Uuid = nat

  const NIL: Uuid := 0

  datatype ParentKind = NetworkKind | SubnetKind | NoKind | UnknownKind

  datatype Parent = Parent(kind: ParentKind, uuid: Uuid)

  datatype Family = IPv4Family | IPv6Family

  datatype Network = Network(name: string, description: string)

  datatype Subnet = Subnet(
    name: string, description: string, prefix: nat, address: Word, family: Family, parent: Parent)

  /** A row of the subnets table: the subnet and its denormalised network_uuid. */
  datatype Row = Row(networkUuid: Uuid, subnet: Subnet)

  type Rows = map<Uuid, Row>

  datatype Db = Db(networks: map<Uuid, Network>, subnets: Rows)

  datatype Error =
    | InvalidSubnetName
    | InvalidSubnetParent
    | IPv6NotSupported
    | ParentNotFound
    | SubnetNameTaken
    | InvalidSubnetAddress
    | InvalidSubnetPrefix
    | AddressRequired
    | PrefixTooBroadForParent
    | NoFreeAddress
    | SubnetOverlap
    | AddressOutsideParent
    | SubnetNotFound
    | SubnetHasChildren
    | SubnetNotInNetwork
    | NetworkNotFound
    | NetworkHasChildren
    | NetworkNameTaken
    | InvalidNetworkName
    | TagKeyRequired
    | DuplicateTagKey
    | StoreFailure

  function Block(s: Subnet): Prefix {
    Prefix(s.address, s.prefix)
  }

  // ---- repository calls --------------------------------------------------------------

  /** The uuids of the rows whose parent is the given one. */
  function ChildrenOf(rows: Rows, parent: Parent): set<Uuid> {
    set id | id in rows && rows[id].subnet.parent == parent
  }

  predicate NameTaken(rows: Rows, networkUuid: Uuid, name: string) {
    exists id | id in rows :: rows[id].networkUuid == networkUuid && rows[id].subnet.name == name
  }

  predicate NameTakenByOther(rows: Rows, networkUuid: Uuid, name: string, self: Uuid) {
    exists id | id in rows ::
      id != self && rows[id].networkUuid == networkUuid && rows[id].subnet.name == name
  }

  /** The network of a subnet about to be written: one look at the parent row. */
  function NetworkOfParent(rows: Rows, parent: Parent): Option<Uuid> {
    match parent.kind
    case NetworkKind => Some(parent.uuid)
    case SubnetKind => if parent.uuid in rows then Some(rows[parent.uuid].networkUuid) else None
    case _ => None
  }

  function InsertSubnet(db: Db, id: Uuid, s: Subnet): Result<Db, Error> {
    match NetworkOfParent(db.subnets, s.parent)
    case None => Err(StoreFailure)
    case Some(n) =>
      if id in db.subnets || n !in db.networks || NameTaken(db.subnets, n, s.name) then Err(StoreFailure)
      else Ok(db.(subnets := db.subnets[id := Row(n, s)]))
  }

  function UpdateSubnet(db: Db, id: Uuid, s: Subnet): Result<Db, Error> {
    match NetworkOfParent(db.subnets, s.parent)
    case None => Err(StoreFailure)
    case Some(n) =>
      if id !in db.subnets then Err(SubnetNotFound)
      else if n !in db.networks || NameTakenByOther(db.subnets, n, s.name, id) then Err(StoreFailure)
      else Ok(db.(subnets := db.subnets[id := Row(n, s)]))
  }

  function DeleteSubnet(db: Db, id: Uuid): Result<Db, Error> {
    if id !in db.subnets then Err(SubnetNotFound)
    else Ok(db.(subnets := db.subnets - {id}))
  }

  predicate NetworkNameUsed(networks: map<Uuid, Network>, name: string, self: Uuid) {
    exists id | id in networks :: id != self && networks[id].name == name
  }

  function InsertNetwork(db: Db, id: Uuid, n: Network): Result<Db, Error> {
    if id in db.networks || NetworkNameUsed(db.networks, n.name, id) then Err(StoreFailure)
    else Ok(db.(networks := db.networks[id := n]))
  }

  function UpdateNetwork(db: Db, id: Uuid, n: Network): Result<Db, Error> {
    if id !in db.networks then Err(NetworkNotFound)
    else if NetworkNameUsed(db.networks, n.name, id) then Err(StoreFailure)
    else Ok(db.(networks := db.networks[id := n]))
  }

  /** The subnet rows ON DELETE CASCADE removes with a network. */
  function Cascade(rows: Rows, networkUuid: Uuid): set<Uuid> {
    set id | id in rows && rows[id].networkUuid == networkUuid
  }

  function DeleteNetwork(db: Db, id: Uuid): Result<Db, Error> {
    if id !in db.networks then Err(NetworkNotFound)
    else Ok(Db(db.networks - {id}, db.subnets - Cascade(db.subnets, id)))
  }

  // ---- the recursive walk to the root network ----------------------------------------

  datatype WalkResult = Arrived(networkUuid: Uuid) | Broken | OutOfFuel

  /** The recursion of resolveNetworkUUID, cut off after fuel parent reads. */
  function Walk(rows: Rows, s: Subnet, fuel: nat): WalkResult
    decreases fuel
  {
    if s.parent.kind == NetworkKind then Arrived(s.parent.uuid)
    else if s.parent.uuid !in rows then Broken
    else if fuel == 0 then OutOfFuel
    else Walk(rows, rows[s.parent.uuid].subnet, fuel - 1)
  }

  // ---- what holds of the rows --------------------------------------------------------

  /** The row is a masked IPv4 block; if its parent is a row, it lies inside that row's block
      and in the same network; if its parent is a network, that is its network. */
  ghost predicate RowFits(rows: Rows, id: Uuid)
    requires id in rows
  {
    var r := rows[id];
    var s := r.subnet;
    WellFormed(Block(s)) && s.family.IPv4Family? &&
    match s.parent.kind
    case NetworkKind => s.parent.uuid == r.networkUuid
    case SubnetKind =>
      s.parent.uuid in rows ==>
        rows[s.parent.uuid].networkUuid == r.networkUuid
        && rows[s.parent.uuid].subnet.prefix <= s.prefix
        && Inside(Block(s), Block(rows[s.parent.uuid].subnet))
    case _ => false
  }

  ghost predicate AllFit(rows: Rows) {
    forall id :: id in rows ==> RowFits(rows, id)
  }

  /** The row exists and names another subnet as its parent. */
  predicate IsNested(rows: Rows, id: Uuid) {
    id in rows && rows[id].subnet.parent.kind == SubnetKind
  }

  /** rank strictly decreases from every row to its parent row. */
  ghost predicate Ranked(rows: Rows, rank: map<Uuid, nat>) {
    rows.Keys <= rank.Keys &&
    forall id :: IsNested(rows, id) && rows[id].subnet.parent.uuid in rows
      ==> rank[rows[id].subnet.parent.uuid] < rank[id]
  }

  /** Every subnet parent is a row. */
  ghost predicate Closed(rows: Rows) {
    forall id :: IsNested(rows, id) ==> rows[id].subnet.parent.uuid in rows
  }

  /** Rows fit their parents, where these exist, and following parents never cycles. */
  ghost predicate Forest(rows: Rows) {
    AllFit(rows) && exists rank :: Ranked(rows, rank)
  }

  predicate Siblings(rows: Rows, a: Uuid, b: Uuid) {
    a in rows && b in rows && a != b && rows[a].subnet.parent == rows[b].subnet.parent
  }

  ghost predicate SiblingsDisjoint(rows: Rows) {
    forall a, b :: Siblings(rows, a, b) ==> Disjoint(Block(rows[a].subnet), Block(rows[b].subnet))
  }

  predicate Homonyms(rows: Rows, a: Uuid, b: Uuid) {
    a in rows && b in rows && a != b
    && rows[a].networkUuid == rows[b].networkUuid && rows[a].subnet.name == rows[b].subnet.name
  }

  ghost predicate NamesUnique(rows: Rows) {
    forall a, b :: !Homonyms(rows, a, b)
  }

  ghost predicate NetworksExist(db: Db) {
    forall id :: id in db.subnets ==> db.subnets[id].networkUuid in db.networks
  }

  ghost predicate NetworkNamesUnique(networks: map<Uuid, Network>) {
    forall a, b :: a in networks && b in networks && networks[a].name == networks[b].name ==> a == b
  }

  /** What every sequence of atomic calls keeps. */
  ghost predicate Inv(db: Db) {
    Forest(db.subnets) && Closed(db.subnets) && SiblingsDisjoint(db.subnets) && NamesUnique(db.subnets)
    && NetworksExist(db) && NetworkNamesUnique(db.networks)
  }

  // ---- ancestors ---------------------------------------------------------------------

  /** The row k parents above id. */
  function Up(rows: Rows, id: Uuid, k: nat): Option<Uuid> {
    if k == 0 then (if id in rows then Some(id) else None)
    else
      var c := Up(rows, id, k - 1);
      if c.Some? && c.value in rows && rows[c.value].subnet.parent.kind == SubnetKind
         && rows[c.value].subnet.parent.uuid in rows
      then Some(rows[c.value].subnet.parent.uuid) else None
  }

  ghost predicate AncestorOrSelf(rows: Rows, a: Uuid, b: Uuid) {
    exists k: nat :: Up(rows, b, k) == Some(a)
  }

  /** The chain of parents of id reaches a network. */
  ghost predicate Rooted(rows: Rows, id: Uuid) {
    id in rows && exists fuel: nat :: Walk(rows, rows[id].subnet, fuel).Arrived?
  }

  ghost predicate SharesAddress(rows: Rows, a: Uuid, b: Uuid)
    requires a in rows && b in rows
  {
    exists x :: x in Addresses(Block(rows[a].subnet)) && x in Addresses(Block(rows[b].subnet))
  }

  lemma SharingIsMeeting(rows: Rows, a: Uuid, b: Uuid)
    requires AllFit(rows) && a in rows && b in rows
    ensures SharesAddress(rows, a, b) <==> !Disjoint(Block(rows[a].subnet), Block(rows[b].subnet))
  {
    assert RowFits(rows, a) && RowFits(rows, b);
    OverlapsIsIntersection(Block(rows[a].subnet), Block(rows[b].subnet));
  }

  /** An ancestor is a row of the same network whose block holds the descendant's. */
  lemma {:induction false} AncestorHolds(rows: Rows, b: Uuid, k: nat)
    requires AllFit(rows) && Up(rows, b, k).Some?
    ensures var a := Up(rows, b, k).value;
            a in rows && b in rows && rows[a].networkUuid == rows[b].networkUuid
            && Inside(Block(rows[b].subnet), Block(rows[a].subnet))
  {
    if k > 0 {
      AncestorHolds(rows, b, k - 1);
      assert RowFits(rows, Up(rows, b, k - 1).value);
    }
  }

  lemma {:induction false} UpFromParent(rows: Rows, id: Uuid, k: nat)
    requires id in rows && rows[id].subnet.parent.kind == SubnetKind && rows[id].subnet.parent.uuid in rows
    ensures Up(rows, id, k + 1) == Up(rows, rows[id].subnet.parent.uuid, k)
  {
    if k == 0 {
      assert Up(rows, id, 0) == Some(id);
    } else {
      UpFromParent(rows, id, k - 1);
    }
  }

  lemma ChildOfDescendant(rows: Rows, a: Uuid, id: Uuid)
    requires id in rows && rows[id].subnet.parent.kind == SubnetKind && rows[id].subnet.parent.uuid in rows
    requires AncestorOrSelf(rows, a, rows[id].subnet.parent.uuid)
    ensures AncestorOrSelf(rows, a, id)
  {
    var k: nat :| Up(rows, rows[id].subnet.parent.uuid, k) == Some(a);
    UpFromParent(rows, id, k);
  }

  lemma RootedParent(rows: Rows, id: Uuid)
    requires Rooted(rows, id) && rows[id].subnet.parent.kind != NetworkKind
    ensures rows[id].subnet.parent.uuid in rows && Rooted(rows, rows[id].subnet.parent.uuid)
  {
    var fuel: nat :| Walk(rows, rows[id].subnet, fuel).Arrived?;
    assert fuel > 0;
    assert Walk(rows, rows[rows[id].subnet.parent.uuid].subnet, fuel - 1).Arrived?;
  }

  /** A row below p, other than p, lies below one of p's children. */
  lemma ChildOnTheWay(rows: Rows, p: Uuid, b: Uuid) returns (c: Uuid)
    requires AllFit(rows) && AncestorOrSelf(rows, p, b) && p != b
    ensures c in rows && b in rows && AncestorOrSelf(rows, c, b)
    ensures rows[c].subnet.parent == Parent(SubnetKind, p)
    ensures Inside(Block(rows[b].subnet), Block(rows[c].subnet))
  {
    var k: nat :| Up(rows, b, k) == Some(p);
    assert k > 0 by {
      assert b in rows ==> Up(rows, b, 0) == Some(b);
    }
    c := Up(rows, b, k - 1).value;
    AncestorHolds(rows, b, k - 1);
  }

  lemma {:induction false} MeetingMeansRelated(rows: Rows, rank: map<Uuid, nat>, a: Uuid, b: Uuid)
    requires AllFit(rows) && Ranked(rows, rank) && SiblingsDisjoint(rows)
    requires Rooted(rows, a) && Rooted(rows, b) && rows[a].networkUuid == rows[b].networkUuid
    requires !Disjoint(Block(rows[a].subnet), Block(rows[b].subnet))
    ensures AncestorOrSelf(rows, a, b) || AncestorOrSelf(rows, b, a)
    decreases rank[a] + rank[b]
  {
    assert RowFits(rows, a) && RowFits(rows, b);
    if a == b {
      assert Up(rows, a, 0) == Some(a);
    } else if rows[a].subnet.parent.kind == SubnetKind {
      var p := rows[a].subnet.parent.uuid;
      assert IsNested(rows, a);
      RootedParent(rows, a);
      MeetingMeansRelated(rows, rank, p, b);
      if AncestorOrSelf(rows, b, p) {
        ChildOfDescendant(rows, b, a);
      } else {
        assert p != b by {
          assert Up(rows, p, 0) == Some(p);
        }
        var c := ChildOnTheWay(rows, p, b);
        assert !Siblings(rows, a, c);
        assert c == a;
      }
    } else if rows[b].subnet.parent.kind == SubnetKind {
      var p := rows[b].subnet.parent.uuid;
      assert IsNested(rows, b);
      RootedParent(rows, b);
      MeetingMeansRelated(rows, rank, a, p);
      if !AncestorOrSelf(rows, a, p) {
        assert p != a by {
          assert Up(rows, p, 0) == Some(p);
        }
        var c := ChildOnTheWay(rows, p, a);
        RootHasNoAncestors(rows, a, p);
      }
      ChildOfDescendant(rows, a, b);
    } else {
      assert Siblings(rows, a, b);
    }
  }

  lemma RootHasNoAncestors(rows: Rows, a: Uuid, p: Uuid)
    requires a in rows && rows[a].subnet.parent.kind == NetworkKind && AncestorOrSelf(rows, p, a)
    ensures p == a
  {
    var k: nat :| Up(rows, a, k) == Some(p);
    NothingAboveRoot(rows, a, k);
  }

  lemma {:induction false} NothingAboveRoot(rows: Rows, a: Uuid, k: nat)
    requires a in rows && rows[a].subnet.parent.kind == NetworkKind
    ensures Up(rows, a, k) == if k == 0 then Some(a) else None
  {
    if k > 0 {
      NothingAboveRoot(rows, a, k - 1);
    }
  }

  /** Two rows of one network whose parent chains reach it share an address exactly when one is
      an ancestor of, or equal to, the other. */
  lemma OverlapIffRelated(rows: Rows, a: Uuid, b: Uuid)
    requires Forest(rows) && SiblingsDisjoint(rows)
    requires Rooted(rows, a) && Rooted(rows, b) && rows[a].networkUuid == rows[b].networkUuid
    ensures SharesAddress(rows, a, b) <==> AncestorOrSelf(rows, a, b) || AncestorOrSelf(rows, b, a)
  {
    SharingIsMeeting(rows, a, b);
    if AncestorOrSelf(rows, a, b) {
      var k: nat :| Up(rows, b, k) == Some(a);
      AncestorHolds(rows, b, k);
    }
    if AncestorOrSelf(rows, b, a) {
      var k: nat :| Up(rows, a, k) == Some(b);
      AncestorHolds(rows, a, k);
    }
    if !Disjoint(Block(rows[a].subnet), Block(rows[b].subnet)) {
      var rank :| Ranked(rows, rank);
      MeetingMeansRelated(rows, rank, a, b);
    }
  }

  // ---- the walk and the denormalised column ------------------------------------------

  ghost function Lower(rows: Rows, rank: map<Uuid, nat>, id: Uuid): set<Uuid>
    requires rows.Keys <= rank.Keys && id in rank
  {
    set x | x in rows && rank[x] < rank[id]
  }

  lemma FewerBelow(rows: Rows, rank: map<Uuid, nat>, id: Uuid, p: Uuid)
    requires rows.Keys <= rank.Keys && id in rows && p in rows && rank[p] < rank[id]
    ensures |Lower(rows, rank, p)| < |Lower(rows, rank, id)|
  {
    assert p in Lower(rows, rank, id);
    assert Lower(rows, rank, p) <= Lower(rows, rank, id) - {p};
    CardSubset(Lower(rows, rank, p), Lower(rows, rank, id) - {p});
  }

  /** The walk from a row reads each lower row at most once; if it arrives, it arrives at the
      row's network_uuid, and it breaks off only where a parent row is missing. */
  lemma {:induction false} WalkEnds(rows: Rows, rank: map<Uuid, nat>, id: Uuid, fuel: nat)
    requires AllFit(rows) && Ranked(rows, rank) && id in rows
    requires |Lower(rows, rank, id)| <= fuel
    ensures var w := Walk(rows, rows[id].subnet, fuel);
            w == Arrived(rows[id].networkUuid) || (w == Broken && !Closed(rows))
    decreases rank[id]
  {
    assert RowFits(rows, id);
    var s := rows[id].subnet;
    assert s.parent.kind == SubnetKind ==> IsNested(rows, id);
    if s.parent.kind == SubnetKind && s.parent.uuid in rows {
      var p := s.parent.uuid;
      FewerBelow(rows, rank, id, p);
      WalkEnds(rows, rank, p, fuel - 1);
    }
  }

  /** In a forest the walk terminates: fewer reads than there are rows are enough. */
  lemma WalkTerminates(rows: Rows, id: Uuid, fuel: nat)
    requires Forest(rows) && id in rows && |rows| <= fuel + 1
    ensures Walk(rows, rows[id].subnet, fuel) == Arrived(rows[id].networkUuid)
         || (Walk(rows, rows[id].subnet, fuel) == Broken && !Closed(rows))
  {
    var rank :| Ranked(rows, rank);
    assert Lower(rows, rank, id) <= rows.Keys - {id};
    CardSubset(Lower(rows, rank, id), rows.Keys - {id});
    WalkEnds(rows, rank, id, fuel);
  }

  /** The denormalised network_uuid is the root the recursive walk reaches. */
  lemma WalkAgrees(rows: Rows, id: Uuid, fuel: nat)
    requires Forest(rows) && Closed(rows) && id in rows && |rows| <= fuel + 1
    ensures Walk(rows, rows[id].subnet, fuel) == Arrived(rows[id].networkUuid)
    ensures Rooted(rows, id)
  {
    WalkTerminates(rows, id, fuel);
  }
}
