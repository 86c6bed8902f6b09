/** Many clients at once.  Only what the program runs inside one write transaction is atomic;
    every read before it is a step of its own, so a client may act on rows that have since
    changed or gone.  The state also carries the history of all rows ever inserted, which no
    step reads: it lets invariants speak about rows a client still remembers.
 */
module Concurrent {
  import opened Common
  import opened Words
  import opened Blocks
  import opened IpUtil
  import opened Tables
  import opened Service

  /** Where a client is in the middle of a call. */
  datatype Client =
    | Walking(input: CreateInput, parentBlock: Prefix, cursor: Subnet)  // has read the parent, resolving its network
    | Ready(input: CreateInput, ctx: Context)                           // about to take the write lock
    | Editing(id: Uuid, stale: Subnet, description: string)             // has read the row to rewrite
    | Checking(id: Uuid)                                                // delete: row seen
    | Deleting(id: Uuid)                                                // delete: no children seen
    | NetChecking(id: Uuid)
    | NetDeleting(id: Uuid)
    | NetAdding(network: Network)                                       // name seen free
    | NetNaming(id: Uuid, network: Network, kept: bool)                   // record read; kept if its name stays
    | NetEditing(id: Uuid, network: Network)                              // name seen free

  datatype State = State(db: Db, history: Rows, clients: map<nat, Client>)

  datatype Action =
    | StartCreate(input: CreateInput)
    | WalkStep
    | CommitRow(id: Uuid)
    | StartEdit(id: Uuid, description: string)
    | CommitEdit
    | StartDelete(id: Uuid)
    | CheckChildren
    | CommitDelete
    | StartNetAdd(name: string, description: string, tags: seq<Tag>)
    | CommitNetAdd(id: Uuid)
    | StartNetEdit(id: Uuid, name: string, description: string, tags: seq<Tag>)
    | CheckNetName
    | CommitNetEdit
    | StartNetDelete(id: Uuid)
    | CheckNetChildren
    | CommitNetDelete
    | GiveUp

  datatype Event = Event(client: nat, action: Action)

  const START: State := State(EMPTY, map[], map[])

  function Put(s: State, c: nat, client: Client): State {
    s.(clients := s.clients[c := client])
  }

  function Drop(s: State, c: nat): State {
    s.(clients := s.clients - {c})
  }

  function SetDb(s: State, db: Db): State {
    s.(db := db)
  }

  /** Reading the parent, without the lock. */
  function BeginCreate(s: State, c: nat, input: CreateInput): State {
    if CreateRefusal(input).Some? then s
    else match input.parent.kind
      case NetworkKind =>
        if input.parent.uuid in s.db.networks then Put(s, c, Ready(input, Context(input.parent.uuid, None))) else s
      case SubnetKind =>
        if input.parent.uuid !in s.db.subnets then s
        else
          var p := s.db.subnets[input.parent.uuid].subnet;
          if p.family != IPv4Family then s
          else (match ParseIPv4Prefix(IPv4(p.address), p.prefix)
                case Err(_) => s
                case Ok(b) => Put(s, c, Walking(input, b, p)))
      case _ => s
  }

  /** One recursion step of the unlocked walk to the network. */
  function StepOfWalk(s: State, c: nat, w: Client): State
    requires w.Walking?
  {
    if w.cursor.parent.kind == NetworkKind
    then Put(s, c, Ready(w.input, Context(w.cursor.parent.uuid, Some(w.parentBlock))))
    else if w.cursor.parent.uuid in s.db.subnets
    then Put(s, c, w.(cursor := s.db.subnets[w.cursor.parent.uuid].subnet))
    else Drop(s, c)
  }

  /** The locked part of a create; uuid.New never repeats a uuid.  A search that never ends leaves the
      client where it is; what it does to a store with a write mutex is the subject of WriteLock. */
  ghost function LockedCreate(s: State, c: nat, r: Client, id: Uuid): State
    requires r.Ready?
  {
    if id in s.history then s
    else
      var out := CommitCreate(s.db, r.ctx, r.input, id);
      match out.reply
      case Done(_) => Drop(State(out.db, s.history[id := out.db.subnets[id]], s.clients), c)
      case Failed(_) => Drop(s, c)
      case NeverReturns => s
  }

  function Try(s: State, c: nat, r: Result<Db, Error>): State {
    match r
    case Ok(db) => Drop(SetDb(s, db), c)
    case Err(_) => Drop(s, c)
  }

  /** The locked full-row write of an edit, from the copy read earlier. */
  function LockedEdit(s: State, c: nat, e: Client): State
    requires e.Editing?
  {
    Try(s, c, UpdateSubnet(s.db, e.id, e.stale.(description := Trim(e.description))))
  }

  /** The unlocked look for children that precedes a delete. */
  function AfterCheck(s: State, c: nat, parent: Parent, next: Client): State {
    if ChildrenOf(s.db.subnets, parent) == {} then Put(s, c, next) else Drop(s, c)
  }

  /** The look for another network of the new name. */
  function AfterNaming(s: State, c: nat, n: Client): State
    requires n.NetNaming?
  {
    if !n.kept && NetworkNameUsed(s.db.networks, n.network.name, n.id) then Drop(s, c)
    else Put(s, c, NetEditing(n.id, n.network))
  }

  /** The state after an event; an event that does not apply changes nothing. */
  ghost function Next(s: State, e: Event): State {
    var c := e.client;
    if c !in s.clients then Begin(s, c, e.action)
    else Continue(s, c, s.clients[c], e.action)
  }

  ghost function Begin(s: State, c: nat, a: Action): State {
    match a
    case StartCreate(input) => BeginCreate(s, c, input)
    case StartEdit(id, description) =>
      if id in s.db.subnets then Put(s, c, Editing(id, s.db.subnets[id].subnet, description)) else s
    case StartDelete(id) => if id in s.db.subnets then Put(s, c, Checking(id)) else s
    case StartNetAdd(name, description, tags) =>
      if Trim(name) != "" && TagFault(tags, {}).None?
         && !(exists n | n in s.db.networks :: s.db.networks[n].name == Trim(name))
      then Put(s, c, NetAdding(Network(Trim(name), Trim(description)))) else s
    case StartNetEdit(id, name, description, tags) =>
      if id in s.db.networks && Trim(name) != "" && TagFault(tags, {}).None?
      then Put(s, c, NetNaming(id, Network(Trim(name), Trim(description)), Trim(name) == s.db.networks[id].name)) else s
    case StartNetDelete(id) => if id in s.db.networks then Put(s, c, NetChecking(id)) else s
    case _ => s
  }

  ghost function Continue(s: State, c: nat, client: Client, a: Action): State {
    if a.GiveUp? then Drop(s, c)
    else match client
      case Walking(_, _, _) => if a.WalkStep? then StepOfWalk(s, c, client) else s
      case Ready(_, _) => if a.CommitRow? then LockedCreate(s, c, client, a.id) else s
      case Editing(_, _, _) => if a.CommitEdit? then LockedEdit(s, c, client) else s
      case Checking(id) => if a.CheckChildren? then AfterCheck(s, c, Parent(SubnetKind, id), Deleting(id)) else s
      case Deleting(id) => if a.CommitDelete? then Try(s, c, DeleteSubnet(s.db, id)) else s
      case NetChecking(id) =>
        if a.CheckNetChildren? then AfterCheck(s, c, Parent(NetworkKind, id), NetDeleting(id)) else s
      case NetDeleting(id) => if a.CommitNetDelete? then Try(s, c, DeleteNetwork(s.db, id)) else s
      case NetAdding(n) => if a.CommitNetAdd? then Try(s, c, InsertNetwork(s.db, a.id, n)) else s
      case NetNaming(id, n, kept) => if a.CheckNetName? then AfterNaming(s, c, client) else s
      case NetEditing(id, n) => if a.CommitNetEdit? then Try(s, c, UpdateNetwork(s.db, id, n)) else s
  }

  ghost function Interleave(s: State, events: seq<Event>): State
    decreases |events|
  {
    if events == [] then s else Next(Interleave(s, events[..|events| - 1]), events[|events| - 1])
  }

  // ---- the invariant -----------------------------------------------------------------

  /** What a client remembers is what history says. */
  ghost predicate Remembers(history: Rows, client: Client) {
    match client
    case Walking(input, b, cursor) =>
      input.parent.kind == SubnetKind && input.parent.uuid in history
      && b == Block(history[input.parent.uuid].subnet)
      && exists k :: IsRowOf(history, k, cursor, history[input.parent.uuid].networkUuid)
    case Ready(input, ctx) => ContextFits(history, ctx, input.parent)
                              && (input.parent.kind == SubnetKind ==> input.parent.uuid in history)
    case Editing(id, stale, _) => id in history && SameSubnet(stale, history[id].subnet)
    case _ => true
  }

  /** The remembered subnet is row k of the history, and in network n. */
  predicate IsRowOf(history: Rows, k: Uuid, s: Subnet, n: Uuid) {
    k in history && SameSubnet(s, history[k].subnet) && history[k].networkUuid == n
  }

  predicate SameSubnet(x: Subnet, y: Subnet) {
    x.(description := "") == y.(description := "")
  }

  ghost predicate Safe(s: State) {
    Forest(s.history) && Closed(s.history) && SubTable(s.db.subnets, s.history)
    && SiblingsDisjoint(s.db.subnets) && NamesUnique(s.db.subnets)
    && NetworksExist(s.db) && NetworkNamesUnique(s.db.networks)
    && forall c :: c in s.clients ==> Remembers(s.history, s.clients[c])
  }

  lemma SameSubnetFields(x: Subnet, y: Subnet)
    requires SameSubnet(x, y)
    ensures x.parent == y.parent && Block(x) == Block(y) && x.name == y.name && x.family == y.family
  {
    assert x.(description := "").parent == x.parent && y.(description := "").parent == y.parent;
    assert x.(description := "").name == x.name && y.(description := "").name == y.name;
    assert x.(description := "").prefix == x.prefix && y.(description := "").prefix == y.prefix;
    assert x.(description := "").address == x.address && y.(description := "").address == y.address;
    assert x.(description := "").family == x.family && y.(description := "").family == y.family;
  }

  /** Dropping a client, or giving it something it remembers rightly, is safe. */
  lemma ClientStep(s: State, c: nat, client: Client)
    requires Safe(s)
    ensures Safe(Drop(s, c))
    ensures Remembers(s.history, client) ==> Safe(Put(s, c, client))
  {
  }

  /** Replacing the tables by tables over the same history is safe. */
  lemma TableStep(s: State, db: Db)
    requires Safe(s) && SubTable(db.subnets, s.history)
    requires SiblingsDisjoint(db.subnets) && NamesUnique(db.subnets)
    requires NetworksExist(db) && NetworkNamesUnique(db.networks)
    ensures Safe(SetDb(s, db))
  {
  }

  lemma LiveRow(s: State, id: Uuid)
    requires Safe(s) && id in s.db.subnets
    ensures id in s.history && SameSubnet(s.db.subnets[id].subnet, s.history[id].subnet)
    ensures s.db.subnets[id].networkUuid == s.history[id].networkUuid
    ensures Block(s.db.subnets[id].subnet) == Block(s.history[id].subnet)
    ensures s.db.subnets[id].subnet.parent == s.history[id].subnet.parent
    ensures WellFormed(Block(s.history[id].subnet)) && s.db.subnets[id].subnet.family == IPv4Family
  {
    assert RowFits(s.history, id);
    SameRow(s.history, s.db.subnets, id);
  }

  lemma BeginCreateIsSafe(s: State, c: nat, input: CreateInput)
    requires Safe(s)
    ensures Safe(BeginCreate(s, c, input))
  {
    var after := BeginCreate(s, c, input);
    if after != s {
      if input.parent.kind == SubnetKind {
        LiveRow(s, input.parent.uuid);
        ReparseIsIdentity(Block(s.history[input.parent.uuid].subnet));
        assert IsRowOf(s.history, input.parent.uuid, s.db.subnets[input.parent.uuid].subnet,
                       s.history[input.parent.uuid].networkUuid);
      }
      ClientStep(s, c, after.clients[c]);
    }
  }

  lemma WalkStepRemembers(s: State, w: Client, k: Uuid)
    requires Safe(s) && w.Walking? && Remembers(s.history, w)
    requires IsRowOf(s.history, k, w.cursor, s.history[w.input.parent.uuid].networkUuid)
    ensures w.cursor.parent.kind == NetworkKind ==>
              Remembers(s.history, Ready(w.input, Context(w.cursor.parent.uuid, Some(w.parentBlock))))
    ensures w.cursor.parent.kind != NetworkKind && w.cursor.parent.uuid in s.db.subnets ==>
              Remembers(s.history, w.(cursor := s.db.subnets[w.cursor.parent.uuid].subnet))
  {
    var n := s.history[w.input.parent.uuid].networkUuid;
    assert RowFits(s.history, k) && RowFits(s.history, w.input.parent.uuid);
    SameSubnetFields(w.cursor, s.history[k].subnet);
    var p := w.cursor.parent;
    if p.kind != NetworkKind && p.uuid in s.db.subnets {
      assert IsNested(s.history, k);
      LiveRow(s, p.uuid);
      assert IsRowOf(s.history, p.uuid, s.db.subnets[p.uuid].subnet, n);
    }
  }

  lemma WalkStepIsSafe(s: State, c: nat)
    requires Safe(s) && c in s.clients && s.clients[c].Walking?
    ensures Safe(StepOfWalk(s, c, s.clients[c]))
  {
    var w := s.clients[c];
    assert Remembers(s.history, w);
    var k :| IsRowOf(s.history, k, w.cursor, s.history[w.input.parent.uuid].networkUuid);
    WalkStepRemembers(s, w, k);
    if w.cursor.parent.kind == NetworkKind {
      ClientStep(s, c, Ready(w.input, Context(w.cursor.parent.uuid, Some(w.parentBlock))));
    } else if w.cursor.parent.uuid in s.db.subnets {
      ClientStep(s, c, w.(cursor := s.db.subnets[w.cursor.parent.uuid].subnet));
    } else {
      ClientStep(s, c, w);
    }
  }

  /** The key fact: however old the client's reading of the parent, it is still right whenever
      the locked step finds the parent row. */
  lemma StaleContextIsRight(s: State, c: nat)
    requires Safe(s) && c in s.clients && s.clients[c].Ready?
    ensures ContextFits(s.db.subnets, s.clients[c].ctx, s.clients[c].input.parent)
    ensures ContextFits(s.history, s.clients[c].ctx, s.clients[c].input.parent)
  {
    assert Remembers(s.history, s.clients[c]);
    var parent := s.clients[c].input.parent;
    if parent.kind == SubnetKind && parent.uuid in s.db.subnets {
      LiveRow(s, parent.uuid);
    }
  }

  lemma RememberLonger(history: Rows, id: Uuid, row: Row, client: Client)
    requires id !in history && Remembers(history, client)
    ensures Remembers(history[id := row], client)
  {
    match client {
      case Walking(input, b, cursor) =>
        var k :| IsRowOf(history, k, cursor, history[input.parent.uuid].networkUuid);
        assert IsRowOf(history[id := row], k, cursor, history[input.parent.uuid].networkUuid);
      case _ =>
    }
  }

  lemma HistoryStep(s: State, ctx: Context, parent: Parent, id: Uuid, row: Row)
    requires Safe(s) && id !in s.history
    requires ContextFits(s.history, ctx, parent) && row.networkUuid == ctx.networkUuid
    requires FreshRowFits(s.db, ctx, parent, id, row.subnet)
    ensures Forest(s.history[id := row]) && Closed(s.history[id := row])
  {
    if parent.kind == SubnetKind {
      LiveRow(s, parent.uuid);
    }
    InsertedRowFits(s.history, ctx, id, row);
    InsertKeepsForest(s.history, id, row);
    var history := s.history[id := row];
    forall c | IsNested(history, c)
      ensures history[c].subnet.parent.uuid in history
    {
      if c != id {
        assert IsNested(s.history, c);
      }
    }
  }

  lemma InsertKeepsTables(s: State, ctx: Context, parent: Parent, id: Uuid, row: Row)
    requires Safe(s) && id !in s.history && row.networkUuid == ctx.networkUuid
    requires FreshRowFits(s.db, ctx, parent, id, row.subnet)
    ensures SiblingsDisjoint(s.db.subnets[id := row]) && NamesUnique(s.db.subnets[id := row])
    ensures NetworksExist(s.db.(subnets := s.db.subnets[id := row]))
    ensures SubTable(s.db.subnets[id := row], s.history[id := row])
  {
    InsertKeepsSiblings(s.db.subnets, id, row);
    InsertKeepsNames(s.db.subnets, id, row);
  }

  lemma InsertIsSafe(s: State, ctx: Context, parent: Parent, id: Uuid, row: Row)
    requires Safe(s) && id !in s.history
    requires ContextFits(s.history, ctx, parent) && row.networkUuid == ctx.networkUuid
    requires FreshRowFits(s.db, ctx, parent, id, row.subnet)
    ensures Safe(State(s.db.(subnets := s.db.subnets[id := row]), s.history[id := row], s.clients))
  {
    HistoryStep(s, ctx, parent, id, row);
    InsertKeepsTables(s, ctx, parent, id, row);
    forall c | c in s.clients
      ensures Remembers(s.history[id := row], s.clients[c])
    {
      RememberLonger(s.history, id, row, s.clients[c]);
    }
  }

  lemma LockedCreateIsSafe(s: State, c: nat, id: Uuid)
    requires Safe(s) && c in s.clients && s.clients[c].Ready?
    ensures Safe(LockedCreate(s, c, s.clients[c], id))
  {
    var r := s.clients[c];
    StaleContextIsRight(s, c);
    ClientStep(s, c, r);
    if id !in s.history && CommitCreate(s.db, r.ctx, r.input, id).reply.Done? {
      SubTableIsForest(s.history, s.db.subnets);
      CreatedFits(s.db, r.ctx, r.input, id);
      var row := Row(r.ctx.networkUuid, CommitCreate(s.db, r.ctx, r.input, id).reply.value);
      InsertIsSafe(s, r.ctx, r.input.parent, id, row);
      ClientStep(State(s.db.(subnets := s.db.subnets[id := row]), s.history[id := row], s.clients), c, r);
    }
  }

  /** A full-row write of a stale copy changes nothing but the description. */
  lemma EditWritesDescription(s: State, c: nat)
    requires Safe(s) && c in s.clients && s.clients[c].Editing?
    ensures var client := s.clients[c];
            var edited := client.stale.(description := Trim(client.description));
            var r := UpdateSubnet(s.db, client.id, edited);
            r.Ok? ==> client.id in s.db.subnets
                      && r.value == s.db.(subnets := s.db.subnets[client.id :=
                           s.db.subnets[client.id].(subnet :=
                             s.db.subnets[client.id].subnet.(description := Trim(client.description)))])
  {
    var client := s.clients[c];
    assert Remembers(s.history, client);
    SameSubnetFields(client.stale, s.history[client.id].subnet);
    assert RowFits(s.history, client.id);
    if client.id in s.db.subnets {
      LiveRow(s, client.id);
      SameSubnetFields(s.db.subnets[client.id].subnet, s.history[client.id].subnet);
      var p := client.stale.parent;
      if p.kind == SubnetKind && p.uuid in s.db.subnets {
        LiveRow(s, p.uuid);
      }
    }
  }

  lemma EditIsSafe(s: State, c: nat)
    requires Safe(s) && c in s.clients && s.clients[c].Editing?
    ensures Safe(LockedEdit(s, c, s.clients[c]))
  {
    var client := s.clients[c];
    var r := UpdateSubnet(s.db, client.id, client.stale.(description := Trim(client.description)));
    EditWritesDescription(s, c);
    ClientStep(s, c, client);
    if r.Ok? {
      assert SubTable(r.value.subnets, s.db.subnets);
      SubTableIsTidy(s.db.subnets, r.value.subnets);
      SubTableTransitive(r.value.subnets, s.db.subnets, s.history);
      TableStep(s, r.value);
      ClientStep(SetDb(s, r.value), c, client);
    }
  }

  lemma SubTableTransitive(a: Rows, b: Rows, c: Rows)
    requires SubTable(a, b) && SubTable(b, c)
    ensures SubTable(a, c)
  {
  }

  /** A write that removes rows at most, and leaves the networks in order, is safe. */
  lemma TryIsSafe(s: State, c: nat, r: Result<Db, Error>)
    requires Safe(s)
    requires r.Ok? ==> SubTable(r.value.subnets, s.db.subnets) && NetworksExist(r.value)
                       && NetworkNamesUnique(r.value.networks)
    ensures Safe(Try(s, c, r))
  {
    ClientStep(s, c, Checking(0));
    if r.Ok? {
      SubTableIsTidy(s.db.subnets, r.value.subnets);
      SubTableTransitive(r.value.subnets, s.db.subnets, s.history);
      TableStep(s, r.value);
      ClientStep(SetDb(s, r.value), c, Checking(0));
    }
  }

  lemma NetworkWritesFit(db: Db, id: Uuid, n: Network)
    requires NetworksExist(db) && NetworkNamesUnique(db.networks)
    ensures InsertNetwork(db, id, n).Ok? ==>
              InsertNetwork(db, id, n).value.subnets == db.subnets
              && NetworksExist(InsertNetwork(db, id, n).value)
              && NetworkNamesUnique(InsertNetwork(db, id, n).value.networks)
    ensures UpdateNetwork(db, id, n).Ok? ==>
              UpdateNetwork(db, id, n).value.subnets == db.subnets
              && NetworksExist(UpdateNetwork(db, id, n).value)
              && NetworkNamesUnique(UpdateNetwork(db, id, n).value.networks)
  {
  }

  lemma RemovalsFit(db: Db, id: Uuid)
    requires NetworksExist(db) && NetworkNamesUnique(db.networks)
    ensures DeleteSubnet(db, id).Ok? ==>
              SubTable(DeleteSubnet(db, id).value.subnets, db.subnets) && NetworksExist(DeleteSubnet(db, id).value)
    ensures DeleteNetwork(db, id).Ok? ==>
              SubTable(DeleteNetwork(db, id).value.subnets, db.subnets) && NetworksExist(DeleteNetwork(db, id).value)
              && NetworkNamesUnique(DeleteNetwork(db, id).value.networks)
  {
    if DeleteNetwork(db, id).Ok? {
      forall c | c in DeleteNetwork(db, id).value.subnets
        ensures db.subnets[c].networkUuid in db.networks - {id}
      {
        assert c !in Cascade(db.subnets, id);
      }
    }
  }

  lemma DeleteSubnetIsSafe(s: State, c: nat, id: Uuid)
    requires Safe(s)
    ensures Safe(Try(s, c, DeleteSubnet(s.db, id)))
  {
    RemovalsFit(s.db, id);
    TryIsSafe(s, c, DeleteSubnet(s.db, id));
  }

  lemma DeleteNetworkIsSafe(s: State, c: nat, id: Uuid)
    requires Safe(s)
    ensures Safe(Try(s, c, DeleteNetwork(s.db, id)))
  {
    RemovalsFit(s.db, id);
    TryIsSafe(s, c, DeleteNetwork(s.db, id));
  }

  lemma InsertNetworkIsSafe(s: State, c: nat, id: Uuid, n: Network)
    requires Safe(s)
    ensures Safe(Try(s, c, InsertNetwork(s.db, id, n)))
  {
    NetworkWritesFit(s.db, id, n);
    TryIsSafe(s, c, InsertNetwork(s.db, id, n));
  }

  lemma UpdateNetworkIsSafe(s: State, c: nat, id: Uuid, n: Network)
    requires Safe(s)
    ensures Safe(Try(s, c, UpdateNetwork(s.db, id, n)))
  {
    NetworkWritesFit(s.db, id, n);
    TryIsSafe(s, c, UpdateNetwork(s.db, id, n));
  }

  lemma CheckIsSafe(s: State, c: nat, parent: Parent, next: Client)
    requires Safe(s) && (next.Deleting? || next.NetDeleting?)
    ensures Safe(AfterCheck(s, c, parent, next))
  {
    ClientStep(s, c, next);
  }

  lemma ContinueCreateIsSafe(s: State, c: nat, a: Action)
    requires Safe(s) && c in s.clients && !a.GiveUp? && (s.clients[c].Walking? || s.clients[c].Ready?)
    ensures Safe(Continue(s, c, s.clients[c], a))
  {
    if s.clients[c].Walking? {
      WalkStepIsSafe(s, c);
    } else if a.CommitRow? {
      LockedCreateIsSafe(s, c, a.id);
    }
  }

  /** What a waiting client's next event does, in one equation each. */
  lemma ContinueDelete(s: State, c: nat, client: Client, a: Action)
    requires !a.GiveUp?
    ensures client.Checking? ==>
              Continue(s, c, client, a)
              == if a.CheckChildren? then AfterCheck(s, c, Parent(SubnetKind, client.id), Deleting(client.id)) else s
    ensures client.NetChecking? ==>
              Continue(s, c, client, a)
              == if a.CheckNetChildren? then AfterCheck(s, c, Parent(NetworkKind, client.id), NetDeleting(client.id)) else s
    ensures client.Deleting? ==>
              Continue(s, c, client, a) == if a.CommitDelete? then Try(s, c, DeleteSubnet(s.db, client.id)) else s
    ensures client.NetDeleting? ==>
              Continue(s, c, client, a) == if a.CommitNetDelete? then Try(s, c, DeleteNetwork(s.db, client.id)) else s
  {
  }

  lemma ContinueDeleteIsSafe(s: State, c: nat, client: Client, a: Action, t: State)
    requires Safe(s) && !a.GiveUp? && t == Continue(s, c, client, a)
    requires client.Checking? || client.Deleting? || client.NetChecking? || client.NetDeleting?
    ensures Safe(t)
  {
    ContinueDelete(s, c, client, a);
    if t != s {
      match client {
        case Checking(id) => CheckIsSafe(s, c, Parent(SubnetKind, id), Deleting(id));
        case NetChecking(id) => CheckIsSafe(s, c, Parent(NetworkKind, id), NetDeleting(id));
        case Deleting(id) => DeleteSubnetIsSafe(s, c, id);
        case NetDeleting(id) => DeleteNetworkIsSafe(s, c, id);
      }
    }
  }

  lemma ContinueNetworkIsSafe(s: State, c: nat, client: Client, a: Action, t: State)
    requires Safe(s) && !a.GiveUp? && t == Continue(s, c, client, a)
    requires client.NetAdding? || client.NetEditing? || client.NetNaming?
    ensures Safe(t)
  {
    if t != s {
      if client.NetEditing? {
        assert t == Try(s, c, UpdateNetwork(s.db, client.id, client.network));
        UpdateNetworkIsSafe(s, c, client.id, client.network);
      } else if client.NetNaming? {
        NamingIsSafe(s, c, client, t);
      } else {
        assert t == Try(s, c, InsertNetwork(s.db, a.id, client.network));
        InsertNetworkIsSafe(s, c, a.id, client.network);
      }
    }
  }

  lemma NamingIsSafe(s: State, c: nat, client: Client, t: State)
    requires Safe(s) && client.NetNaming? && t == AfterNaming(s, c, client)
    ensures Safe(t)
  {
    var next := NetEditing(client.id, client.network);
    assert t == Drop(s, c) || t == Put(s, c, next);
    ClientStep(s, c, next);
  }

  lemma ContinueIsSafe(s: State, c: nat, a: Action)
    requires Safe(s) && c in s.clients
    ensures Safe(Continue(s, c, s.clients[c], a))
  {
    if a.GiveUp? {
      ClientStep(s, c, s.clients[c]);
    } else {
      match s.clients[c] {
        case Walking(_, _, _) => ContinueCreateIsSafe(s, c, a);
        case Ready(_, _) => ContinueCreateIsSafe(s, c, a);
        case Editing(_, _, _) => EditIsSafe(s, c);
        case Checking(_) => ContinueDeleteIsSafe(s, c, s.clients[c], a, Continue(s, c, s.clients[c], a));
        case NetChecking(_) => ContinueDeleteIsSafe(s, c, s.clients[c], a, Continue(s, c, s.clients[c], a));
        case Deleting(_) => ContinueDeleteIsSafe(s, c, s.clients[c], a, Continue(s, c, s.clients[c], a));
        case NetDeleting(_) => ContinueDeleteIsSafe(s, c, s.clients[c], a, Continue(s, c, s.clients[c], a));
        case NetAdding(_) => ContinueNetworkIsSafe(s, c, s.clients[c], a, Continue(s, c, s.clients[c], a));
        case NetNaming(_, _, _) => ContinueNetworkIsSafe(s, c, s.clients[c], a, Continue(s, c, s.clients[c], a));
        case NetEditing(_, _) => ContinueNetworkIsSafe(s, c, s.clients[c], a, Continue(s, c, s.clients[c], a));
      }
    }
  }

  lemma BeginEditIsSafe(s: State, c: nat, id: Uuid, description: string)
    requires Safe(s)
    ensures Safe(Begin(s, c, StartEdit(id, description)))
  {
    if id in s.db.subnets {
      LiveRow(s, id);
      ClientStep(s, c, Editing(id, s.db.subnets[id].subnet, description));
    }
  }

  /** The other first steps only note what the client is about to do. */
  lemma BeginOtherIsSafe(s: State, c: nat, a: Action)
    requires Safe(s) && !a.StartCreate? && !a.StartEdit?
    ensures Safe(Begin(s, c, a))
  {
    if Begin(s, c, a) != s {
      var client := Begin(s, c, a).clients[c];
      assert Begin(s, c, a) == Put(s, c, client);
      assert !client.Walking? && !client.Ready? && !client.Editing?;
      ClientStep(s, c, client);
    }
  }

  lemma BeginIsSafe(s: State, c: nat, a: Action)
    requires Safe(s)
    ensures Safe(Begin(s, c, a))
  {
    match a {
      case StartCreate(input) => BeginCreateIsSafe(s, c, input);
      case StartEdit(id, description) => BeginEditIsSafe(s, c, id, description);
      case _ => BeginOtherIsSafe(s, c, a);
    }
  }

  lemma {:induction false} InterleavingsAreSafe(s: State, events: seq<Event>)
    requires Safe(s)
    ensures Safe(Interleave(s, events))
    decreases |events|
  {
    if events != [] {
      var before := Interleave(s, events[..|events| - 1]);
      var e := events[|events| - 1];
      InterleavingsAreSafe(s, events[..|events| - 1]);
      if e.client in before.clients {
        ContinueIsSafe(before, e.client, e.action);
      } else {
        BeginIsSafe(before, e.client, e.action);
      }
    }
  }

  lemma StartIsSafe()
    ensures Safe(START)
  {
    var none: map<Uuid, nat> := map[];
    assert Ranked(START.history, none);
  }

  // ---- what every interleaving keeps -------------------------------------------------

  /** However the clients interleave: siblings are disjoint, each child lies inside its parent
      whenever the parent row exists, names are unique per network, and every row is a masked
      IPv4 block of an existing network. */
  lemma InterleavedInvariants(events: seq<Event>)
    ensures var db := Interleave(START, events).db;
            Forest(db.subnets) && SiblingsDisjoint(db.subnets) && NamesUnique(db.subnets)
            && NetworksExist(db) && NetworkNamesUnique(db.networks)
  {
    StartIsSafe();
    InterleavingsAreSafe(START, events);
    var s := Interleave(START, events);
    SubTableIsForest(s.history, s.db.subnets);
  }

  ghost predicate Extends(later: Rows, earlier: Rows) {
    forall id :: id in earlier ==> id in later && later[id] == earlier[id]
  }

  lemma NextKeepsHistory(s: State, e: Event)
    ensures Extends(Next(s, e).history, s.history)
  {
    if e.client in s.clients {
      var client := s.clients[e.client];
      if client.Ready? && e.action.CommitRow? {
        assert Next(s, e) == LockedCreate(s, e.client, client, e.action.id);
      } else {
        OtherStepsKeepHistory(s, e.client, client, e.action);
      }
    }
  }

  lemma OtherStepsKeepHistory(s: State, c: nat, client: Client, a: Action)
    requires !(client.Ready? && a.CommitRow? && !a.GiveUp?)
    ensures Continue(s, c, client, a).history == s.history
  {
  }

  lemma {:induction false} HistoryGrows(s: State, events: seq<Event>, k: nat)
    requires k <= |events|
    ensures Extends(Interleave(s, events).history, Interleave(s, events[..k]).history)
    decreases |events|
  {
    if k == |events| {
      assert events[..k] == events;
    } else {
      var n := |events| - 1;
      assert events[..n][..k] == events[..k];
      HistoryGrows(s, events[..n], k);
      NextKeepsHistory(Interleave(s, events[..n]), events[n]);
    }
  }

  /** A row's prefix, address, parent and network never change: if a uuid names a row now and
      named one earlier, the two differ in their descriptions at most. */
  lemma RowsAreImmutable(events: seq<Event>, k: nat, id: Uuid)
    requires k <= |events|
    requires id in Interleave(START, events[..k]).db.subnets && id in Interleave(START, events).db.subnets
    ensures SameCore(Interleave(START, events[..k]).db.subnets[id], Interleave(START, events).db.subnets[id])
  {
    StartIsSafe();
    InterleavingsAreSafe(START, events[..k]);
    InterleavingsAreSafe(START, events);
    HistoryGrows(START, events, k);
    LiveRow(Interleave(START, events[..k]), id);
    LiveRow(Interleave(START, events), id);
  }

  /** Where both parent chains are intact, sharing an address still means being related. */
  lemma InterleavedOverlap(events: seq<Event>, a: Uuid, b: Uuid)
    requires var rows := Interleave(START, events).db.subnets;
             Rooted(rows, a) && Rooted(rows, b) && rows[a].networkUuid == rows[b].networkUuid
    ensures var rows := Interleave(START, events).db.subnets;
            SharesAddress(rows, a, b) <==> AncestorOrSelf(rows, a, b) || AncestorOrSelf(rows, b, a)
  {
    InterleavedInvariants(events);
    OverlapIffRelated(Interleave(START, events).db.subnets, a, b);
  }

  /** The listing of a network contains its orphans, but the scoped calls accept exactly the rows
      whose parent chain is intact; for the others they report a missing parent. */
  lemma InterleavedListing(events: seq<Event>, n: Uuid, id: Uuid)
    requires var db := Interleave(START, events).db;
             id in db.subnets && db.subnets[id].networkUuid == n
    ensures var db := Interleave(START, events).db;
            ListByNetwork(db, n).Done? && id in ListByNetwork(db, n).value
            && (EnsureInNetwork(db, n, id).Done? <==> Rooted(db.subnets, id))
            && (!Rooted(db.subnets, id) ==> EnsureInNetwork(db, n, id) == Failed(ParentNotFound))
  {
    var db := Interleave(START, events).db;
    InterleavedInvariants(events);
    WalkTerminates(db.subnets, id, |db.subnets|);
    if Rooted(db.subnets, id) {
      var fuel: nat :| Walk(db.subnets, db.subnets[id].subnet, fuel).Arrived?;
      WalksAgree(db.subnets, db.subnets[id].subnet, fuel, |db.subnets|);
    }
  }

  /** Two walks from the same row that both come to an end come to the same end. */
  lemma {:induction false} WalksAgree(rows: Rows, s: Subnet, f: nat, g: nat)
    requires !Walk(rows, s, f).OutOfFuel? && !Walk(rows, s, g).OutOfFuel?
    ensures Walk(rows, s, f) == Walk(rows, s, g)
    decreases f
  {
    if s.parent.kind != NetworkKind && s.parent.uuid in rows {
      WalksAgree(rows, rows[s.parent.uuid].subnet, f - 1, g - 1);
    }
  }

  /** Conservation, however the clients interleave: the children of a subnet that is there add up to at
      most its own size, the direct children of a network to at most 2^32. */
  lemma InterleavedConservation(events: seq<Event>, parent: Parent, ids: seq<Uuid>)
    requires ListsChildren(Interleave(START, events).db.subnets, parent, ids)
    ensures var rows := Interleave(START, events).db.subnets;
            parent.kind == SubnetKind && parent.uuid in rows ==>
              TotalSize(BlocksOf(rows, ids)) <= Size(Block(rows[parent.uuid].subnet))
    ensures TotalSize(BlocksOf(Interleave(START, events).db.subnets, ids)) <= WORD_SIZE
  {
    var rows := Interleave(START, events).db.subnets;
    InterleavedInvariants(events);
    forall c | c in ChildrenOf(rows, parent)
      ensures rows[c].subnet.address + Size(Block(rows[c].subnet)) <= WORD_SIZE
    {
      assert RowFits(rows, c);
      EndsInRange(Block(rows[c].subnet));
    }
    ChildrenFitIn(rows, parent, ids, 0, WORD_SIZE);
    if parent.kind == SubnetKind && parent.uuid in rows {
      var p := Block(rows[parent.uuid].subnet);
      forall c | c in ChildrenOf(rows, parent)
        ensures Inside(Block(rows[c].subnet), p)
      {
        assert RowFits(rows, c);
      }
      ChildrenFitIn(rows, parent, ids, p.addr, Size(p));
    }
  }

  // ---- the unlocked walk ends --------------------------------------------------------

  /** How many parents the walk reads before it meets a network. */
  function Hops(rows: Rows, s: Subnet, fuel: nat): nat
    decreases fuel
  {
    if s.parent.kind == NetworkKind || s.parent.uuid !in rows || fuel == 0 then 0
    else 1 + Hops(rows, rows[s.parent.uuid].subnet, fuel - 1)
  }

  lemma {:induction false} FewHops(rows: Rows, s: Subnet, fuel: nat)
    ensures Hops(rows, s, fuel) <= fuel
    decreases fuel
  {
    if s.parent.kind != NetworkKind && s.parent.uuid in rows && fuel > 0 {
      FewHops(rows, rows[s.parent.uuid].subnet, fuel - 1);
    }
  }

  /** More fuel, or more rows, do not change a walk that arrives. */
  lemma {:induction false} HopsStay(rows: Rows, later: Rows, s: Subnet, fuel: nat, more: nat)
    requires Extends(later, rows) && fuel <= more && Walk(rows, s, fuel).Arrived?
    ensures Walk(later, s, more).Arrived? && Hops(later, s, more) == Hops(rows, s, fuel)
    decreases fuel
  {
    if s.parent.kind != NetworkKind {
      HopsStay(rows, later, rows[s.parent.uuid].subnet, fuel - 1, more - 1);
    }
  }

  /** How many parents a walking client has yet to read, were all rows of the history still there. */
  function Distance(s: State, c: nat): nat
    requires c in s.clients && s.clients[c].Walking?
  {
    Hops(s.history, s.clients[c].cursor, |s.history|)
  }

  /** The walk from a remembered row arrives in the history, in fewer reads than it has rows. */
  lemma CursorArrives(s: State, c: nat) returns (k: Uuid)
    requires Safe(s) && c in s.clients && s.clients[c].Walking?
    ensures k in s.history && SameSubnet(s.clients[c].cursor, s.history[k].subnet)
    ensures s.clients[c].cursor.parent == s.history[k].subnet.parent
    ensures Walk(s.history, s.clients[c].cursor, |s.history| - 1).Arrived?
    ensures Distance(s, c) == Hops(s.history, s.clients[c].cursor, |s.history| - 1) < |s.history|
  {
    var w := s.clients[c];
    assert Remembers(s.history, w);
    k :| IsRowOf(s.history, k, w.cursor, s.history[w.input.parent.uuid].networkUuid);
    SameSubnetFields(w.cursor, s.history[k].subnet);
    var n := |s.history| - 1;
    assert s.history.Keys != {};
    WalkTerminates(s.history, k, n);
    SameWalk(s.history, w.cursor, s.history[k].subnet, n);
    HopsStay(s.history, s.history, w.cursor, n, n + 1);
    FewHops(s.history, w.cursor, n);
  }

  lemma SameWalk(rows: Rows, x: Subnet, y: Subnet, fuel: nat)
    requires x.parent == y.parent
    ensures Walk(rows, x, fuel) == Walk(rows, y, fuel) && Hops(rows, x, fuel) == Hops(rows, y, fuel)
  {
  }

  lemma OneHopLess(rows: Rows, s: Subnet, p: Subnet, n: nat, more: nat)
    requires s.parent.kind != NetworkKind && s.parent.uuid in rows && p.parent == rows[s.parent.uuid].subnet.parent
    requires Walk(rows, s, n).Arrived? && n <= more
    ensures Hops(rows, s, n) == 1 + Hops(rows, p, more)
  {
    SameWalk(rows, p, rows[s.parent.uuid].subnet, n - 1);
    HopsStay(rows, rows, p, n - 1, more);
  }

  /** A step of the walk that does not end it brings the client one row nearer. */
  lemma WalkStepDescends(s: State, c: nat, t: State)
    requires Safe(s) && c in s.clients && s.clients[c].Walking? && t == StepOfWalk(s, c, s.clients[c])
    requires c in t.clients && t.clients[c].Walking?
    ensures Distance(t, c) + 1 == Distance(s, c)
  {
    var cursor := s.clients[c].cursor;
    var k := CursorArrives(s, c);
    LiveRow(s, cursor.parent.uuid);
    OneHopLess(s.history, cursor, s.db.subnets[cursor.parent.uuid].subnet, |s.history| - 1, |s.history|);
  }

  lemma OthersLeaveClient(s: State, c: nat, e: Event, t: State)
    requires c in s.clients && s.clients[c].Walking? && e != Event(c, WalkStep) && t == Next(s, e)
    ensures c in t.clients ==> t.clients[c] == s.clients[c]
  {
  }

  /** Whatever else happens leaves it where it is. */
  lemma OthersLeaveWalker(s: State, c: nat, t: State)
    requires Safe(s) && c in s.clients && s.clients[c].Walking?
    requires Extends(t.history, s.history) && c in t.clients && t.clients[c] == s.clients[c]
    ensures Distance(t, c) == Distance(s, c)
  {
    var k := CursorArrives(s, c);
    HopsGrow(s.history, t.history, s.clients[c].cursor, |s.history| - 1);
  }

  lemma HopsGrow(rows: Rows, later: Rows, s: Subnet, fuel: nat)
    requires Extends(later, rows) && fuel <= |rows| && Walk(rows, s, fuel).Arrived?
    ensures Hops(later, s, |later|) == Hops(rows, s, fuel)
  {
    assert rows.Keys <= later.Keys;
    CardSubset(rows.Keys, later.Keys);
    HopsStay(rows, later, s, fuel, |later|);
  }

  /** How many steps of its walk client c takes. */
  function WalkSteps(events: seq<Event>, c: nat): nat
    decreases |events|
  {
    if events == [] then 0
    else WalkSteps(events[..|events| - 1], c) + (if events[|events| - 1] == Event(c, WalkStep) then 1 else 0)
  }

  predicate WalkingAt(s: State, c: nat) {
    c in s.clients && s.clients[c].Walking?
  }

  /** The client is walking before and after each of the events. */
  ghost predicate WalksThrough(s: State, c: nat, events: seq<Event>) {
    forall k :: 0 <= k <= |events| ==> WalkingAt(Interleave(s, events[..k]), c)
  }

  lemma WalksBefore(s: State, c: nat, events: seq<Event>)
    requires WalksThrough(s, c, events)
    ensures WalkingAt(s, c) && WalkingAt(Interleave(s, events), c)
    ensures events != [] ==> WalksThrough(s, c, events[..|events| - 1])
  {
    assert events[..0] == [] && WalkingAt(Interleave(s, events[..0]), c);
    assert events[..|events|] == events && WalkingAt(Interleave(s, events[..|events|]), c);
    if events != [] {
      var init := events[..|events| - 1];
      forall k | 0 <= k <= |init|
        ensures WalkingAt(Interleave(s, init[..k]), c)
      {
        assert init[..k] == events[..k] && WalkingAt(Interleave(s, events[..k]), c);
      }
    }
  }

  /** However the other clients interleave, a client that is walking all the time takes fewer steps
      than there were rows in the history when it began. */
  lemma {:induction false} WalkIsShort(s: State, c: nat, events: seq<Event>)
    requires Safe(s) && WalksThrough(s, c, events)
    ensures WalkingAt(s, c) && WalkingAt(Interleave(s, events), c)
    ensures WalkSteps(events, c) + Distance(Interleave(s, events), c) == Distance(s, c)
    ensures WalkSteps(events, c) < |s.history|
    decreases |events|
  {
    WalksBefore(s, c, events);
    var k := CursorArrives(s, c);
    if events != [] {
      var init := events[..|events| - 1];
      WalkIsShort(s, c, init);
      InterleavingsAreSafe(s, init);
      WalkerMoves(Interleave(s, init), c, events[|events| - 1], Interleave(s, events));
    }
  }

  lemma WalkerMoves(s: State, c: nat, e: Event, t: State)
    requires Safe(s) && WalkingAt(s, c) && t == Next(s, e) && WalkingAt(t, c)
    ensures Distance(t, c) + (if e == Event(c, WalkStep) then 1 else 0) == Distance(s, c)
  {
    if e == Event(c, WalkStep) {
      WalkStepDescends(s, c, t);
    } else {
      NextKeepsHistory(s, e);
      OthersLeaveClient(s, c, e, t);
      OthersLeaveWalker(s, c, t);
    }
  }
}
