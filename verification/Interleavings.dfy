/** How the concurrent model relates to the atomic one.  A client left alone behaves as the atomic
    call.  Of the invariant that atomic calls keep, only the presence of every parent can be lost,
    and only by one kind of step.  What follows from that presence can then fail too: overlap
    without kinship, and networks whose deletion removes rows.
 */
module Interleavings {
  import opened Common
  import opened Words
  import opened Blocks
  import opened IpUtil
  import opened Tables
  import opened Service
  import opened Concurrent
  import Filling

  lemma Snoc(s: State, events: seq<Event>, e: Event)
    ensures Interleave(s, events + [e]) == Next(Interleave(s, events), e)
  {
    assert (events + [e])[..|events|] == events;
  }

  lemma {:induction false} Append(s: State, first: seq<Event>, second: seq<Event>)
    ensures Interleave(s, first + second) == Interleave(Interleave(s, first), second)
    decreases |second|
  {
    if second == [] {
      assert first + second == first;
    } else {
      var init, e := second[..|second| - 1], second[|second| - 1];
      assert init + [e] == second && (first + init) + [e] == first + second;
      Append(s, first, init);
      Snoc(s, first + init, e);
      Snoc(Interleave(s, first), init, e);
    }
  }

  ghost predicate AllBy(c: nat, events: seq<Event>) {
    forall i :: 0 <= i < |events| ==> events[i].client == c
  }

  // ---- a client left alone -----------------------------------------------------------

  /** Where the walk leaves its client: ready, or, at a missing parent, done. */
  ghost function AfterWalk(s: State, c: nat, w: Client, result: WalkResult): State
    requires w.Walking?
  {
    if result.Arrived? then Put(s, c, Ready(w.input, Context(result.networkUuid, Some(w.parentBlock)))) else Drop(s, c)
  }

  /** The unlocked walk, undisturbed, ends where the recursive walk ends. */
  lemma {:induction false} WalkAlone(s: State, c: nat, w: Client, fuel: nat) returns (events: seq<Event>)
    requires w.Walking? && c in s.clients && s.clients[c] == w && !Walk(s.db.subnets, w.cursor, fuel).OutOfFuel?
    ensures AllBy(c, events)
    ensures Interleave(s, events) == AfterWalk(s, c, w, Walk(s.db.subnets, w.cursor, fuel))
    decreases fuel
  {
    var e := Event(c, WalkStep);
    One(s, e);
    assert Next(s, e) == StepOfWalk(s, c, w);
    if w.cursor.parent.kind == NetworkKind || w.cursor.parent.uuid !in s.db.subnets {
      events := [e];
    } else {
      var w' := w.(cursor := s.db.subnets[w.cursor.parent.uuid].subnet);
      var rest := WalkAlone(Put(s, c, w'), c, w', fuel - 1);
      Append(s, [e], rest);
      WalkGoesOn(s, c, w, w', Walk(s.db.subnets, w.cursor, fuel));
      events := [e] + rest;
    }
  }

  lemma WalkGoesOn(s: State, c: nat, w: Client, w': Client, result: WalkResult)
    requires w.Walking? && w'.Walking? && w'.input == w.input && w'.parentBlock == w.parentBlock
    ensures AfterWalk(Put(s, c, w'), c, w', result) == AfterWalk(s, c, w, result)
  {
    assert Drop(Put(s, c, w'), c) == Drop(s, c);
  }

  lemma PutTwice(s: State, c: nat, first: Client, second: Client)
    ensures Put(Put(s, c, first), c, second) == Put(s, c, second)
    ensures c !in s.clients ==> Drop(Put(s, c, first), c) == s
  {
  }

  /** In every interleaving a parent row can be read back as a block, and the walk from it ends. */
  lemma ParentReads(s: State, id: Uuid)
    requires Safe(s) && id in s.db.subnets
    ensures var p := s.db.subnets[id].subnet;
            p.family == IPv4Family && ParseIPv4Prefix(IPv4(p.address), p.prefix) == Ok(Block(p))
            && !Walk(s.db.subnets, p, |s.db.subnets|).OutOfFuel?
  {
    SubTableIsForest(s.history, s.db.subnets);
    assert RowFits(s.db.subnets, id);
    ReparseIsIdentity(Block(s.db.subnets[id].subnet));
    WalkTerminates(s.db.subnets, id, |s.db.subnets|);
  }

  /** What a create knows after its reads, undisturbed. */
  ghost function AfterReads(s: State, c: nat, input: CreateInput): State {
    match ResolveParentContext(s.db, input.parent)
    case Done(ctx) => Put(s, c, Ready(input, ctx))
    case _ => s
  }

  /** After its reads, undisturbed, a create holds the parent context of the atomic call, or is done
      because there is none. */
  lemma ReadsAlone(s: State, c: nat, input: CreateInput) returns (events: seq<Event>)
    requires Safe(s) && c !in s.clients && CreateRefusal(input).None?
    ensures AllBy(c, events) && events != [] && events[0] == Event(c, StartCreate(input))
    ensures !ResolveParentContext(s.db, input.parent).NeverReturns?
    ensures Interleave(s, events) == AfterReads(s, c, input)
  {
    var e := Event(c, StartCreate(input));
    One(s, e);
    if input.parent.kind == SubnetKind && input.parent.uuid in s.db.subnets {
      events := ReadsUnderSubnet(s, c, input);
    } else {
      events := [e];
    }
  }

  lemma BeginsWalking(s: State, c: nat, input: CreateInput)
    requires Safe(s) && c !in s.clients && CreateRefusal(input).None?
    requires input.parent.kind == SubnetKind && input.parent.uuid in s.db.subnets
    ensures var p := s.db.subnets[input.parent.uuid].subnet;
            Next(s, Event(c, StartCreate(input))) == Put(s, c, Walking(input, Block(p), p))
  {
    ParentReads(s, input.parent.uuid);
  }

  lemma ReadsUnderSubnet(s: State, c: nat, input: CreateInput) returns (events: seq<Event>)
    requires Safe(s) && c !in s.clients && CreateRefusal(input).None?
    requires input.parent.kind == SubnetKind && input.parent.uuid in s.db.subnets
    ensures AllBy(c, events) && events != [] && events[0] == Event(c, StartCreate(input))
    ensures !ResolveParentContext(s.db, input.parent).NeverReturns?
    ensures Interleave(s, events) == AfterReads(s, c, input)
  {
    var e := Event(c, StartCreate(input));
    var p := s.db.subnets[input.parent.uuid].subnet;
    var w := Walking(input, Block(p), p);
    BeginsWalking(s, c, input);
    One(s, e);
    ParentReads(s, input.parent.uuid);
    var rest := WalkAlone(Put(s, c, w), c, w, |s.db.subnets|);
    Append(s, [e], rest);
    events := [e] + rest;
    WalkGivesContext(s, c, input, w);
  }

  lemma WalkGivesContext(s: State, c: nat, input: CreateInput, w: Client)
    requires Safe(s) && c !in s.clients && input.parent.kind == SubnetKind && input.parent.uuid in s.db.subnets
    requires var p := s.db.subnets[input.parent.uuid].subnet; w == Walking(input, Block(p), p)
    ensures !ResolveParentContext(s.db, input.parent).NeverReturns?
    ensures AfterWalk(Put(s, c, w), c, w, Walk(s.db.subnets, w.cursor, |s.db.subnets|)) == AfterReads(s, c, input)
  {
    ParentReads(s, input.parent.uuid);
    match Walk(s.db.subnets, w.cursor, |s.db.subnets|) {
      case Arrived(n) => PutTwice(s, c, w, Ready(input, Context(n, Some(w.parentBlock))));
      case Broken => PutTwice(s, c, w, w);
    }
  }

  lemma One(s: State, e: Event)
    ensures Interleave(s, [e]) == Next(s, e)
  {
    Snoc(s, [], e);
    assert [] + [e] == [e];
  }

  /** In every interleaving, orphans or not, a create whose steps nobody interrupts is the atomic
      create.  The call is started; its client is done, and the others are where they were, exactly when
      the atomic call returns. */
  lemma CreateAloneIsAtomic(s: State, c: nat, input: CreateInput, id: Uuid) returns (events: seq<Event>)
    requires Safe(s) && c !in s.clients && id !in s.history
    ensures AllBy(c, events) && events != [] && events[0] == Event(c, StartCreate(input))
    ensures Interleave(s, events).db == CreateSubnet(s.db, input, id).db
    ensures if CreateSubnet(s.db, input, id).reply.NeverReturns? then c in Interleave(s, events).clients
            else Interleave(s, events).clients == s.clients
    ensures Interleave(s, events).history.Keys <= s.history.Keys + {id}
  {
    if CreateRefusal(input).Some? {
      events := [Event(c, StartCreate(input))];
      One(s, events[0]);
    } else {
      events := ReadsAlone(s, c, input);
      if ResolveParentContext(s.db, input.parent).Done? {
        var e := Event(c, CommitRow(id));
        Snoc(s, events, e);
        events := events + [e];
        CommitAlone(s, c, input, ResolveParentContext(s.db, input.parent).value, id);
      }
    }
  }

  lemma CommitAlone(s: State, c: nat, input: CreateInput, ctx: Context, id: Uuid)
    requires c !in s.clients && id !in s.history
    ensures var t := Next(Put(s, c, Ready(input, ctx)), Event(c, CommitRow(id)));
            var out := CommitCreate(s.db, ctx, input, id);
            t.db == out.db && t.history.Keys <= s.history.Keys + {id}
            && if out.reply.NeverReturns? then c in t.clients else t.clients == s.clients
  {
    var r := Put(s, c, Ready(input, ctx));
    assert Next(r, Event(c, CommitRow(id))) == LockedCreate(r, c, r.clients[c], id);
    RefusedChangesNothing(s.db, ctx, input, id);
    assert r.clients - {c} == s.clients;
  }

  lemma RefusedChangesNothing(db: Db, ctx: Context, input: CreateInput, id: Uuid)
    ensures !CommitCreate(db, ctx, input, id).reply.Done? ==> CommitCreate(db, ctx, input, id).db == db
  {
  }

  lemma EditAfterRead(s: State, c: nat, id: Uuid, description: string)
    requires c !in s.clients && id in s.db.subnets
    ensures Next(Put(s, c, Editing(id, s.db.subnets[id].subnet, description)), Event(c, CommitEdit))
         == SetDb(s, UpdateDescription(s.db, id, description).db)
  {
    var client := Editing(id, s.db.subnets[id].subnet, description);
    var mid := Put(s, c, client);
    assert Next(mid, Event(c, CommitEdit)) == LockedEdit(mid, c, client);
    assert mid.clients - {c} == s.clients;
  }

  /** So is an update, and a delete, with the client done. */
  lemma UpdateAloneIsAtomic(s: State, c: nat, id: Uuid, description: string)
    requires c !in s.clients
    ensures Interleave(s, [Event(c, StartEdit(id, description)), Event(c, CommitEdit)])
         == SetDb(s, UpdateDescription(s.db, id, description).db)
  {
    Two(s, Event(c, StartEdit(id, description)), Event(c, CommitEdit));
    if id in s.db.subnets {
      EditAfterRead(s, c, id, description);
    }
  }

  lemma DeleteAloneIsAtomic(s: State, c: nat, id: Uuid)
    requires c !in s.clients
    ensures Interleave(s, [Event(c, StartDelete(id)), Event(c, CheckChildren), Event(c, CommitDelete)])
         == SetDb(s, RemoveSubnet(s.db, id).db)
  {
    var e1, e2, e3 := Event(c, StartDelete(id)), Event(c, CheckChildren), Event(c, CommitDelete);
    Two(s, e1, e2);
    Snoc(s, [e1, e2], e3);
    assert [e1, e2] + [e3] == [e1, e2, e3];
    if id in s.db.subnets {
      assert Next(s, e1) == Put(s, c, Checking(id));
      DeleteAfterLook(s, c, id);
    }
  }

  lemma DeleteAfterLook(s: State, c: nat, id: Uuid)
    requires c !in s.clients && id in s.db.subnets
    ensures Next(Next(Put(s, c, Checking(id)), Event(c, CheckChildren)), Event(c, CommitDelete))
         == SetDb(s, RemoveSubnet(s.db, id).db)
  {
    var r := Put(s, c, Checking(id));
    var t := Next(r, Event(c, CheckChildren));
    assert t == AfterCheck(r, c, Parent(SubnetKind, id), Deleting(id));
    if ChildrenOf(s.db.subnets, Parent(SubnetKind, id)) == {} {
      PutTwice(s, c, Checking(id), Deleting(id));
      assert t == Put(s, c, Deleting(id));
      assert Next(t, Event(c, CommitDelete)) == Try(t, c, DeleteSubnet(t.db, id));
      assert t.clients - {c} == s.clients;
    } else {
      assert r.clients - {c} == s.clients;
    }
  }

  /** The state after a write that may be refused, with its client done. */
  function Committed(s: State, r: Result<Db, Error>): State {
    match r
    case Ok(db) => SetDb(s, db)
    case Err(_) => s
  }

  lemma TryIsCommitted(s: State, c: nat, client: Client, r: Result<Db, Error>)
    requires c !in s.clients
    ensures Try(Put(s, c, client), c, r) == Committed(s, r)
  {
    assert Put(s, c, client).clients - {c} == s.clients;
  }

  /** The checks of a network create. */
  ghost predicate MayAdd(db: Db, name: string, tags: seq<Tag>) {
    Trim(name) != "" && TagFault(tags, {}).None? && !(exists n | n in db.networks :: db.networks[n].name == Trim(name))
  }

  lemma AddInOneStep(db: Db, name: string, description: string, tags: seq<Tag>, id: Uuid)
    ensures AddNetwork(db, name, description, tags, id).db
         == if !MayAdd(db, name, tags) then db
            else match InsertNetwork(db, id, Network(Trim(name), Trim(description))) case Ok(after) => after case Err(_) => db
  {
  }

  lemma AddBegins(s: State, c: nat, name: string, description: string, tags: seq<Tag>)
    requires c !in s.clients
    ensures Next(s, Event(c, StartNetAdd(name, description, tags)))
         == if MayAdd(s.db, name, tags) then Put(s, c, NetAdding(Network(Trim(name), Trim(description)))) else s
  {
  }

  lemma AddCommits(s: State, c: nat, n: Network, id: Uuid)
    requires c !in s.clients
    ensures Next(Put(s, c, NetAdding(n)), Event(c, CommitNetAdd(id))) == Committed(s, InsertNetwork(s.db, id, n))
    ensures Next(s, Event(c, CommitNetAdd(id))) == s
  {
    var r := Put(s, c, NetAdding(n));
    TryIsCommitted(s, c, NetAdding(n), InsertNetwork(s.db, id, n));
    assert Next(r, Event(c, CommitNetAdd(id))) == Try(r, c, InsertNetwork(s.db, id, n));
  }

  /** So are the calls on networks. */
  lemma AddNetworkAloneIsAtomic(s: State, c: nat, name: string, description: string, tags: seq<Tag>, id: Uuid)
    requires c !in s.clients
    ensures Interleave(s, [Event(c, StartNetAdd(name, description, tags)), Event(c, CommitNetAdd(id))])
         == SetDb(s, AddNetwork(s.db, name, description, tags, id).db)
  {
    Two(s, Event(c, StartNetAdd(name, description, tags)), Event(c, CommitNetAdd(id)));
    AddBegins(s, c, name, description, tags);
    AddCommits(s, c, Network(Trim(name), Trim(description)), id);
    AddInOneStep(s.db, name, description, tags, id);
  }

  lemma NamedAndWritten(s: State, c: nat, id: Uuid, n: Network, kept: bool)
    requires c !in s.clients
    ensures Next(Next(Put(s, c, NetNaming(id, n, kept)), Event(c, CheckNetName)), Event(c, CommitNetEdit))
         == if !kept && NetworkNameUsed(s.db.networks, n.name, id) then s else Committed(s, UpdateNetwork(s.db, id, n))
  {
    var r := Put(s, c, NetNaming(id, n, kept));
    var t := Next(r, Event(c, CheckNetName));
    assert t == AfterNaming(r, c, NetNaming(id, n, kept));
    PutTwice(s, c, NetNaming(id, n, kept), NetEditing(id, n));
    if !kept && NetworkNameUsed(s.db.networks, n.name, id) {
      NothingBegins(s, c);
    } else {
      assert t == Put(s, c, NetEditing(id, n));
      TryIsCommitted(s, c, NetEditing(id, n), UpdateNetwork(s.db, id, n));
      assert Next(t, Event(c, CommitNetEdit)) == Try(t, c, UpdateNetwork(s.db, id, n));
    }
  }

  ghost predicate MayChange(db: Db, id: Uuid, name: string, tags: seq<Tag>) {
    id in db.networks && Trim(name) != "" && TagFault(tags, {}).None?
  }

  lemma ChangeInOneStep(db: Db, id: Uuid, name: string, description: string, tags: seq<Tag>)
    ensures ChangeNetwork(db, id, name, description, tags).db
         == if !MayChange(db, id, name, tags)
               || (Trim(name) != db.networks[id].name && NetworkNameUsed(db.networks, Trim(name), id)) then db
            else match UpdateNetwork(db, id, Network(Trim(name), Trim(description))) case Ok(after) => after case Err(_) => db
  {
  }

  lemma ChangeBegins(s: State, c: nat, id: Uuid, name: string, description: string, tags: seq<Tag>)
    requires c !in s.clients
    ensures Next(s, Event(c, StartNetEdit(id, name, description, tags)))
         == if !MayChange(s.db, id, name, tags) then s
            else Put(s, c, NetNaming(id, Network(Trim(name), Trim(description)), Trim(name) == s.db.networks[id].name))
  {
  }

  lemma NothingBegins(s: State, c: nat)
    requires c !in s.clients
    ensures Next(s, Event(c, CheckNetName)) == s && Next(s, Event(c, CommitNetEdit)) == s
    ensures Next(s, Event(c, CheckNetChildren)) == s && Next(s, Event(c, CommitNetDelete)) == s
  {
  }

  lemma ChangeNetworkAloneIsAtomic(s: State, c: nat, id: Uuid, name: string, description: string, tags: seq<Tag>)
    requires c !in s.clients
    ensures Next(Interleave(s, [Event(c, StartNetEdit(id, name, description, tags)), Event(c, CheckNetName)]),
                 Event(c, CommitNetEdit))
         == SetDb(s, ChangeNetwork(s.db, id, name, description, tags).db)
  {
    Two(s, Event(c, StartNetEdit(id, name, description, tags)), Event(c, CheckNetName));
    ChangeBegins(s, c, id, name, description, tags);
    ChangeInOneStep(s.db, id, name, description, tags);
    NothingBegins(s, c);
    if MayChange(s.db, id, name, tags) {
      NamedAndWritten(s, c, id, Network(Trim(name), Trim(description)), Trim(name) == s.db.networks[id].name);
    }
  }

  lemma CheckedAndDeleted(s: State, c: nat, id: Uuid)
    requires c !in s.clients
    ensures Next(Next(Put(s, c, NetChecking(id)), Event(c, CheckNetChildren)), Event(c, CommitNetDelete))
         == if ChildrenOf(s.db.subnets, Parent(NetworkKind, id)) != {} then s else Committed(s, DeleteNetwork(s.db, id))
  {
    var r := Put(s, c, NetChecking(id));
    var t := Next(r, Event(c, CheckNetChildren));
    assert t == AfterCheck(r, c, Parent(NetworkKind, id), NetDeleting(id));
    PutTwice(s, c, NetChecking(id), NetDeleting(id));
    if ChildrenOf(s.db.subnets, Parent(NetworkKind, id)) == {} {
      assert t == Put(s, c, NetDeleting(id));
      TryIsCommitted(s, c, NetDeleting(id), DeleteNetwork(s.db, id));
      assert Next(t, Event(c, CommitNetDelete)) == Try(t, c, DeleteNetwork(s.db, id));
    } else {
      NothingBegins(s, c);
    }
  }

  lemma RemoveBegins(s: State, c: nat, id: Uuid)
    requires c !in s.clients
    ensures Next(s, Event(c, StartNetDelete(id))) == if id in s.db.networks then Put(s, c, NetChecking(id)) else s
  {
  }

  lemma RemoveNetworkAloneIsAtomic(s: State, c: nat, id: Uuid)
    requires c !in s.clients
    ensures Next(Interleave(s, [Event(c, StartNetDelete(id)), Event(c, CheckNetChildren)]), Event(c, CommitNetDelete))
         == SetDb(s, RemoveNetwork(s.db, id).db)
  {
    Two(s, Event(c, StartNetDelete(id)), Event(c, CheckNetChildren));
    RemoveBegins(s, c, id);
    NothingBegins(s, c);
    if id in s.db.networks {
      CheckedAndDeleted(s, c, id);
    }
  }

  lemma Two(s: State, e1: Event, e2: Event)
    ensures Interleave(s, [e1, e2]) == Next(Next(s, e1), e2)
  {
    One(s, e1);
    Snoc(s, [e1], e2);
    assert [e1] + [e2] == [e1, e2];
  }

  // ---- where orphans come from -------------------------------------------------------

  /** The event deletes a live subnet that has children by now. */
  ghost predicate DeletesUnderChildren(s: State, e: Event) {
    e.client in s.clients && s.clients[e.client].Deleting? && e.action.CommitDelete? &&
    var id := s.clients[e.client].id;
    id in s.db.subnets && ChildrenOf(s.db.subnets, Parent(SubnetKind, id)) != {}
  }

  /** Every parent row exists after a step if and only if that step was not a delete whose check
      for children has gone stale. */
  lemma OrphansComeFromStaleDeletes(s: State, e: Event)
    requires Safe(s) && Closed(s.db.subnets)
    ensures Closed(Next(s, e).db.subnets) <==> !DeletesUnderChildren(s, e)
  {
    if e.client !in s.clients {
      BeginLeavesTables(s, e.client, e.action);
    } else if s.clients[e.client].Deleting? && e.action.CommitDelete? {
      DeleteOpensIff(s, e.client, s.clients[e.client].id);
    } else {
      OtherCommitsStayClosed(s, e.client, e.action);
    }
  }

  lemma DeleteOpensIff(s: State, c: nat, id: Uuid)
    requires Safe(s) && Closed(s.db.subnets) && c in s.clients && s.clients[c] == Deleting(id)
    ensures Closed(Next(s, Event(c, CommitDelete)).db.subnets) <==> !DeletesUnderChildren(s, Event(c, CommitDelete))
  {
    assert Next(s, Event(c, CommitDelete)) == Try(s, c, DeleteSubnet(s.db, id));
    DeletingOpens(s.db.subnets, id);
    SubTableIsForest(s.history, s.db.subnets);
  }

  lemma OtherCommitsStayClosed(s: State, c: nat, a: Action)
    requires Safe(s) && Closed(s.db.subnets) && c in s.clients && !(s.clients[c].Deleting? && a.CommitDelete?)
    ensures Closed(Continue(s, c, s.clients[c], a).db.subnets)
  {
    var client := s.clients[c];
    if client.NetDeleting? && a.CommitNetDelete? {
      CascadeStaysClosed(s, client.id);
    } else if client.Ready? && a.CommitRow? {
      CreateStaysClosed(s, c, a.id);
    } else if client.Editing? && a.CommitEdit? {
      EditStaysClosed(s, c);
    } else {
      OthersLeaveRows(s, c, client, a);
    }
  }

  lemma BeginLeavesTables(s: State, c: nat, a: Action)
    ensures Begin(s, c, a).db == s.db
  {
  }

  lemma OthersLeaveRows(s: State, c: nat, client: Client, a: Action)
    requires !(client.Deleting? && a.CommitDelete?) && !(client.NetDeleting? && a.CommitNetDelete?)
    requires !(client.Ready? && a.CommitRow?) && !(client.Editing? && a.CommitEdit?)
    ensures Continue(s, c, client, a).db.subnets == s.db.subnets
  {
  }

  lemma DeletingOpens(rows: Rows, id: Uuid)
    requires Closed(rows)
    ensures id in rows ==> (Closed(rows - {id}) <==> ChildrenOf(rows, Parent(SubnetKind, id)) - {id} == {})
    ensures id in rows && AllFit(rows) && (exists rank :: Ranked(rows, rank)) ==>
              id !in ChildrenOf(rows, Parent(SubnetKind, id))
  {
    if id in rows {
      forall k | IsNested(rows - {id}, k)
        ensures rows[k].subnet.parent.uuid in rows - {id} <==> rows[k].subnet.parent != Parent(SubnetKind, id)
      {
        assert IsNested(rows, k);
      }
      if ChildrenOf(rows, Parent(SubnetKind, id)) - {id} != {} {
        var k :| k in ChildrenOf(rows, Parent(SubnetKind, id)) - {id};
        assert IsNested(rows - {id}, k);
      }
      if rank :| Ranked(rows, rank) {
        assert IsNested(rows, id) ==> rows[id].subnet.parent.uuid in rows;
      }
    }
  }

  lemma CascadeStaysClosed(s: State, n: Uuid)
    requires Safe(s) && Closed(s.db.subnets)
    ensures Closed(s.db.subnets - Cascade(s.db.subnets, n))
  {
    var rows := s.db.subnets;
    var left := rows - Cascade(rows, n);
    SubTableIsForest(s.history, rows);
    forall k | IsNested(left, k)
      ensures rows[k].subnet.parent.uuid in left
    {
      assert IsNested(rows, k) && RowFits(rows, k);
    }
  }

  lemma CreateStaysClosed(s: State, c: nat, id: Uuid)
    requires Safe(s) && Closed(s.db.subnets) && c in s.clients && s.clients[c].Ready?
    ensures Closed(LockedCreate(s, c, s.clients[c], id).db.subnets)
  {
    var r := s.clients[c];
    var out := CommitCreate(s.db, r.ctx, r.input, id);
    if id !in s.history && out.reply.Done? {
      SubTableIsForest(s.history, s.db.subnets);
      StaleContextIsRight(s, c);
      CreatedFits(s.db, r.ctx, r.input, id);
      var after := out.db.subnets;
      forall k | IsNested(after, k)
        ensures after[k].subnet.parent.uuid in after
      {
        if k != id {
          assert IsNested(s.db.subnets, k);
        }
      }
    }
  }

  lemma EditStaysClosed(s: State, c: nat)
    requires Safe(s) && Closed(s.db.subnets) && c in s.clients && s.clients[c].Editing?
    ensures Closed(LockedEdit(s, c, s.clients[c]).db.subnets)
  {
    EditWritesDescription(s, c);
    var client := s.clients[c];
    var after := LockedEdit(s, c, client).db.subnets;
    forall k | IsNested(after, k)
      ensures after[k].subnet.parent.uuid in after
    {
      assert IsNested(s.db.subnets, k);
    }
  }

  // ---- two clients leaving an orphan -------------------------------------------------

  /** The lower half of the address space. */
  const HALF: Prefix := Prefix(0, 1)

  function HalfInput(name: string, parent: Parent): CreateInput {
    CreateInput(name, "", 1, Text(IPv4(0)), None, parent)
  }

  function HalfRow(name: string, parent: Parent): Row {
    Row(1, Subnet(name, "", 1, 0, IPv4Family, parent))
  }

  lemma {:induction false} ZeroAligned(k: nat)
    ensures Aligned(0, k)
  {
    if k > 0 {
      ZeroAligned(k - 1);
    }
  }

  lemma HalfIsWellFormed()
    ensures WellFormed(HALF) && ParseIPv4Prefix(IPv4(0), 1) == Ok(HALF)
  {
    ZeroAligned(31);
    ReparseIsIdentity(HALF);
  }

  ghost predicate RoomForHalf(db: Db, name: string, parent: Parent, id: Uuid, block: Option<Prefix>) {
    id !in db.subnets && 1 in db.networks && ChildrenOf(db.subnets, parent) == {}
    && Trim(name) == name && !NameTaken(db.subnets, 1, name)
    && match parent.kind
       case NetworkKind => parent.uuid == 1 && block == None
       case SubnetKind => parent.uuid in db.subnets && db.subnets[parent.uuid].networkUuid == 1 && block == Some(HALF)
       case _ => false
  }

  lemma HalfCommits(db: Db, name: string, parent: Parent, id: Uuid, block: Option<Prefix>)
    requires RoomForHalf(db, name, parent, id, block)
    ensures var out := CommitCreate(db, Context(1, block), HalfInput(name, parent), id);
            out.reply.Done? && out.db == db.(subnets := db.subnets[id := HalfRow(name, parent)])
  {
    HalfIsWellFormed();
    assert SiblingBlocks(db.subnets, parent) == {};
    Filling.CommitDecides(db, Context(1, block), HalfInput(name, parent), id);
    assert Verdict(HALF, block, {}) == None;
  }

  /** A ready client creates the lower half under a parent without children. */
  lemma CommitHalf(s: State, c: nat, name: string, parent: Parent, id: Uuid, block: Option<Prefix>)
    requires c in s.clients && s.clients[c] == Ready(HalfInput(name, parent), Context(1, block))
    requires id !in s.history && RoomForHalf(s.db, name, parent, id, block)
    ensures Next(s, Event(c, CommitRow(id)))
         == State(s.db.(subnets := s.db.subnets[id := HalfRow(name, parent)]),
                  s.history[id := HalfRow(name, parent)], s.clients - {c})
  {
    HalfCommits(s.db, name, parent, id, block);
    assert Next(s, Event(c, CommitRow(id))) == LockedCreate(s, c, s.clients[c], id);
  }

  const NET: Parent := Parent(NetworkKind, 1)
  const TEN: Parent := Parent(SubnetKind, 10)

  ghost function AfterNetwork(): State {
    State(Db(map[1 := Network("n", "")], map[]), map[], map[])
  }

  ghost function AfterParent(): State {
    State(Db(map[1 := Network("n", "")], map[10 := HalfRow("p", NET)]), map[10 := HalfRow("p", NET)], map[])
  }

  lemma TraceToNetwork() returns (events: seq<Event>)
    ensures Interleave(START, events) == AfterNetwork()
  {
    var e1, e2 := Event(0, StartNetAdd("n", "", [])), Event(0, CommitNetAdd(1));
    Two(START, e1, e2);
    assert Next(START, e1) == Put(START, 0, NetAdding(Network("n", "")));
    assert Next(Next(START, e1), e2) == AfterNetwork();
    events := [e1, e2];
  }

  /** Client 0 creates subnet 10 in the network; the other clients stay where they are. */
  lemma ParentSteps(s: State) returns (events: seq<Event>)
    requires s.db == AfterNetwork().db && s.history == map[] && 0 !in s.clients
    ensures Interleave(s, events) == State(AfterParent().db, AfterParent().history, s.clients)
  {
    var e3, e4 := Event(0, StartCreate(HalfInput("p", NET))), Event(0, CommitRow(10));
    Two(s, e3, e4);
    var t := Put(s, 0, Ready(HalfInput("p", NET), Context(1, None)));
    assert Next(s, e3) == t;
    CommitHalf(t, 0, "p", NET, 10, None);
    assert t.clients - {0} == s.clients;
    events := [e3, e4];
  }

  lemma TraceToParent() returns (events: seq<Event>)
    ensures Interleave(START, events) == AfterParent()
  {
    var first := TraceToNetwork();
    var second := ParentSteps(AfterNetwork());
    Append(START, first, second);
    events := first + second;
  }

  ghost function AfterChild(): State {
    var rows := map[10 := HalfRow("p", NET), 11 := HalfRow("c", TEN)];
    State(Db(map[1 := Network("n", "")], rows), rows, map[1 := Deleting(10)])
  }

  /** Client 1 sees subnet 10 childless. */
  lemma TraceToCheck() returns (events: seq<Event>)
    ensures Interleave(AfterParent(), events) == Put(AfterParent(), 1, Deleting(10))
  {
    var s := AfterParent();
    var e5, e6 := Event(1, StartDelete(10)), Event(1, CheckChildren);
    Two(s, e5, e6);
    assert Next(s, e5) == Put(s, 1, Checking(10));
    assert Next(Put(s, 1, Checking(10)), e6) == Put(s, 1, Deleting(10));
    events := [e5, e6];
  }

  /** Client 0 reads parent and network of its new child. */
  lemma TraceToReady(s: State) returns (events: seq<Event>)
    requires s == Put(AfterParent(), 1, Deleting(10))
    ensures Interleave(s, events) == Put(s, 0, Ready(HalfInput("c", TEN), Context(1, Some(HALF))))
  {
    var w := Walking(HalfInput("c", TEN), HALF, HalfRow("p", NET).subnet);
    var e7, e8 := Event(0, StartCreate(HalfInput("c", TEN))), Event(0, WalkStep);
    Two(s, e7, e8);
    HalfIsWellFormed();
    assert Next(s, e7) == BeginCreate(s, 0, HalfInput("c", TEN)) == Put(s, 0, w);
    assert Next(Put(s, 0, w), e8) == StepOfWalk(Put(s, 0, w), 0, w);
    events := [e7, e8];
  }

  /** Client 0 creates the child; client 1 has yet to delete. */
  lemma TraceToChild() returns (events: seq<Event>)
    ensures Interleave(Put(AfterParent(), 1, Deleting(10)), events) == AfterChild()
  {
    var s1 := Put(AfterParent(), 1, Deleting(10));
    var lookups := TraceToReady(s1);
    var s2 := Put(s1, 0, Ready(HalfInput("c", TEN), Context(1, Some(HALF))));
    var e9 := Event(0, CommitRow(11));
    Snoc(s1, lookups, e9);
    CommitsChild(s2, e9);
    events := lookups + [e9];
  }

  lemma ChildHasRoom()
    ensures RoomForHalf(AfterParent().db, "c", TEN, 11, Some(HALF))
  {
    var rows := AfterParent().db.subnets;
    assert rows[10].subnet.parent != TEN;
    assert ChildrenOf(rows, TEN) == {};
    assert "p"[0] != "c"[0];
  }

  lemma CommitsChild(s: State, e: Event)
    requires s == Put(Put(AfterParent(), 1, Deleting(10)), 0, Ready(HalfInput("c", TEN), Context(1, Some(HALF))))
    requires e == Event(0, CommitRow(11))
    ensures Next(s, e) == AfterChild()
  {
    ChildHasRoom();
    CommitHalf(s, 0, "c", TEN, 11, Some(HALF));
    assert s.db.subnets[11 := HalfRow("c", TEN)] == AfterChild().db.subnets;
    assert s.clients - {0} == AfterChild().clients;
  }

  ghost function AfterOrphan(): State {
    State(Db(map[1 := Network("n", "")], map[11 := HalfRow("c", TEN)]),
          map[10 := HalfRow("p", NET), 11 := HalfRow("c", TEN)], map[])
  }

  /** The stale delete goes through. */
  lemma StaleDelete()
    ensures Interleave(AfterChild(), [Event(1, CommitDelete)]) == AfterOrphan()
  {
    var s0 := AfterChild();
    One(s0, Event(1, CommitDelete));
    assert Next(s0, Event(1, CommitDelete)) == Try(s0, 1, DeleteSubnet(s0.db, 10));
    assert s0.db.subnets - {10} == AfterOrphan().db.subnets;
    assert s0.clients - {1} == map[];
  }

  lemma TraceToOrphan() returns (events: seq<Event>)
    ensures Interleave(START, events) == AfterOrphan()
  {
    var a := TraceToParent();
    var b := TraceToCheck();
    var c := TraceToChild();
    StaleDelete();
    Append(START, a, b);
    Append(START, a + b, c);
    Append(START, a + b + c, [Event(1, CommitDelete)]);
    events := a + b + c + [Event(1, CommitDelete)];
  }

  ghost function AfterOverlap(): State {
    State(Db(map[1 := Network("n", "")], map[11 := HalfRow("c", TEN), 12 := HalfRow("q", NET)]),
          map[10 := HalfRow("p", NET), 11 := HalfRow("c", TEN), 12 := HalfRow("q", NET)], map[])
  }

  /** The freed space is given out again. */
  lemma TraceToOverlap() returns (events: seq<Event>)
    ensures Interleave(AfterOrphan(), events) == AfterOverlap()
  {
    var s1 := AfterOrphan();
    var e11, e12 := Event(0, StartCreate(HalfInput("q", NET))), Event(0, CommitRow(12));
    Two(s1, e11, e12);
    var s2 := Put(s1, 0, Ready(HalfInput("q", NET), Context(1, None)));
    assert Next(s1, e11) == s2;
    CommitHalf(s2, 0, "q", NET, 12, None);
    assert Next(s2, e12) == AfterOverlap();
    events := [e11, e12];
  }

  lemma WholeTrace() returns (events: seq<Event>)
    ensures Interleave(START, events) == AfterOverlap()
  {
    var a := TraceToOrphan();
    var b := TraceToOverlap();
    Append(START, a, b);
    events := a + b;
  }

  /** Two clients can leave an orphan, and after that two unrelated subnets of one network can hold
      the same addresses: the overlap theorem needs intact parent chains. */
  lemma OrphanOverlap() returns (events: seq<Event>)
    ensures var rows := Interleave(START, events).db.subnets;
            11 in rows && 12 in rows && !Closed(rows) && !Rooted(rows, 11)
            && rows[11].networkUuid == rows[12].networkUuid && SharesAddress(rows, 11, 12)
            && !AncestorOrSelf(rows, 11, 12) && !AncestorOrSelf(rows, 12, 11)
  {
    events := WholeTrace();
    assert OverlapTable(AfterOverlap().db.subnets);
    OverlapWithoutKinship(AfterOverlap().db.subnets);
  }

  ghost predicate OverlapTable(rows: Rows) {
    rows.Keys == {11, 12} && rows[11] == HalfRow("c", TEN) && rows[12] == HalfRow("q", NET)
  }

  lemma OverlapWithoutKinship(rows: Rows)
    requires OverlapTable(rows)
    ensures !Closed(rows) && !Rooted(rows, 11) && SharesAddress(rows, 11, 12)
    ensures !AncestorOrSelf(rows, 11, 12) && !AncestorOrSelf(rows, 12, 11)
  {
    OrphanIsCutOff(rows, 11);
    BothHoldZero(rows, 11, 12);
    NoAncestor(rows, 11, 12);
    NoAncestor(rows, 12, 11);
  }

  /** A row whose parent row is missing opens the table and reaches no network. */
  lemma OrphanIsCutOff(rows: Rows, id: Uuid)
    requires IsNested(rows, id) && rows[id].subnet.parent.uuid !in rows
    ensures !Closed(rows) && !Rooted(rows, id)
  {
  }

  lemma BothHoldZero(rows: Rows, a: Uuid, b: Uuid)
    requires a in rows && b in rows && rows[a].subnet.address == 0 && rows[b].subnet.address == 0
    ensures SharesAddress(rows, a, b)
  {
    assert 0 in Addresses(Block(rows[a].subnet)) && 0 in Addresses(Block(rows[b].subnet));
  }

  lemma NoAncestor(rows: Rows, a: Uuid, b: Uuid)
    requires b in rows && a != b && !(IsNested(rows, b) && rows[b].subnet.parent.uuid in rows)
    ensures !AncestorOrSelf(rows, a, b)
  {
    forall k: nat
      ensures Up(rows, b, k) != Some(a)
    {
      NothingAbove(rows, b, k);
    }
  }

  lemma {:induction false} NothingAbove(rows: Rows, id: Uuid, k: nat)
    requires id in rows && !(IsNested(rows, id) && rows[id].subnet.parent.uuid in rows)
    ensures Up(rows, id, k) == if k == 0 then Some(id) else None
  {
    if k > 0 {
      NothingAbove(rows, id, k - 1);
    }
  }

  // ---- what deleting a network removes -----------------------------------------------

  /** A row whose parent chain is intact lies below a direct child of its network. */
  lemma {:induction false} RootedHasDirectChild(rows: Rows, id: Uuid, fuel: nat)
    requires AllFit(rows) && id in rows && Walk(rows, rows[id].subnet, fuel).Arrived?
    ensures ChildrenOf(rows, Parent(NetworkKind, rows[id].networkUuid)) != {}
    decreases fuel
  {
    assert RowFits(rows, id);
    if rows[id].subnet.parent.kind == NetworkKind {
      assert id in ChildrenOf(rows, Parent(NetworkKind, rows[id].networkUuid));
    } else {
      RootedHasDirectChild(rows, rows[id].subnet.parent.uuid, fuel - 1);
    }
  }

  /** id is a row of the network whose chain of parents is broken. */
  ghost predicate IsOrphanIn(rows: Rows, n: Uuid, id: Uuid) {
    id in rows && rows[id].networkUuid == n && !Rooted(rows, id)
  }

  ghost predicate HasOrphan(rows: Rows, n: Uuid) {
    exists id :: IsOrphanIn(rows, n, id)
  }

  /** However the clients interleave: a network without a direct child is empty if and only if it has
      no row with a broken chain of parents. */
  lemma ChildlessCascade(events: seq<Event>, n: Uuid)
    requires ChildrenOf(Interleave(START, events).db.subnets, Parent(NetworkKind, n)) == {}
    ensures var rows := Interleave(START, events).db.subnets;
            Cascade(rows, n) == {} <==> !HasOrphan(rows, n)
  {
    InterleavedInvariants(events);
    ChildlessRows(Interleave(START, events).db.subnets, n);
  }

  lemma ChildlessRows(rows: Rows, n: Uuid)
    requires AllFit(rows) && ChildrenOf(rows, Parent(NetworkKind, n)) == {}
    ensures Cascade(rows, n) == {} <==> !HasOrphan(rows, n)
  {
    forall id | id in Cascade(rows, n)
      ensures IsOrphanIn(rows, n, id)
    {
      if Rooted(rows, id) {
        var fuel: nat :| Walk(rows, rows[id].subnet, fuel).Arrived?;
        RootedHasDirectChild(rows, id, fuel);
      }
    }
    forall id | IsOrphanIn(rows, n, id)
      ensures id in Cascade(rows, n)
    {
    }
  }

  /** The locked step of a network delete removes subnets if and only if the network is there and by
      now has a direct child, or has a row with a broken chain of parents. */
  lemma NetworkDeleteRemovesIff(s: State, c: nat)
    requires Safe(s) && c in s.clients && s.clients[c].NetDeleting?
    ensures var n := s.clients[c].id;
            Next(s, Event(c, CommitNetDelete)).db.subnets != s.db.subnets <==>
              n in s.db.networks && (ChildrenOf(s.db.subnets, Parent(NetworkKind, n)) != {} || HasOrphan(s.db.subnets, n))
  {
    var n := s.clients[c].id;
    var rows := s.db.subnets;
    assert Next(s, Event(c, CommitNetDelete)) == Try(s, c, DeleteNetwork(s.db, n));
    SubTableIsForest(s.history, rows);
    if ChildrenOf(rows, Parent(NetworkKind, n)) == {} {
      ChildlessRows(rows, n);
      CascadeRemoves(rows, n);
    } else {
      var id :| id in ChildrenOf(rows, Parent(NetworkKind, n));
      assert RowFits(rows, id);
      assert id in Cascade(rows, n);
      CascadeRemoves(rows, n);
    }
  }

  lemma CascadeRemoves(rows: Rows, n: Uuid)
    ensures rows - Cascade(rows, n) != rows <==> Cascade(rows, n) != {}
  {
    if id :| id in Cascade(rows, n) {
      assert id !in rows - Cascade(rows, n);
    } else {
      assert rows - Cascade(rows, n) == rows;
    }
  }

  /** A client deletes network 1 with all its rows. */
  lemma NetworkGoes(s: State, c: nat)
    requires 1 in s.db.networks && c in s.clients && s.clients[c] == NetDeleting(1)
    requires s.db.networks.Keys == {1} && forall id :: id in s.db.subnets ==> s.db.subnets[id].networkUuid == 1
    ensures Next(s, Event(c, CommitNetDelete)).db == EMPTY
  {
    assert Next(s, Event(c, CommitNetDelete)) == Try(s, c, DeleteNetwork(s.db, 1));
    assert s.db.networks - {1} == map[];
    assert s.db.subnets - Cascade(s.db.subnets, 1) == map[];
  }

  /** A network seen without direct children, up to the locked step. */
  lemma TraceToNetDelete(s: State) returns (events: seq<Event>)
    requires s.clients == map[] && 1 in s.db.networks && ChildrenOf(s.db.subnets, Parent(NetworkKind, 1)) == {}
    ensures Interleave(s, events) == Put(s, 1, NetDeleting(1))
  {
    var e1, e2 := Event(1, StartNetDelete(1)), Event(1, CheckNetChildren);
    Two(s, e1, e2);
    assert Next(s, e1) == Put(s, 1, NetChecking(1));
    assert Next(Put(s, 1, NetChecking(1)), e2) == AfterCheck(Put(s, 1, NetChecking(1)), 1, NET, NetDeleting(1));
    assert Put(Put(s, 1, NetChecking(1)), 1, NetDeleting(1)) == Put(s, 1, NetDeleting(1));
    events := [e1, e2];
  }

  /** After a stale delete has left an orphan, one client deleting the network by itself takes the
      orphan along: the network had no direct child. */
  lemma NetworkDeleteTakesOrphan() returns (events: seq<Event>, k: nat)
    ensures k <= |events| && Interleave(START, events[..k]).clients == map[]
    ensures var rows := Interleave(START, events[..k]).db.subnets;
            11 in rows && rows[11].networkUuid == 1 && ChildrenOf(rows, Parent(NetworkKind, 1)) == {}
    ensures Interleave(START, events).db == EMPTY
    ensures RemoveNetwork(Interleave(START, events[..k]).db, 1) == Outcome(EMPTY, Done(()))
  {
    var first := TraceToOrphan();
    var s := AfterOrphan();
    var second := TraceToNetDelete(s);
    var e := Event(1, CommitNetDelete);
    NetworkGoes(Put(s, 1, NetDeleting(1)), 1);
    Append(START, first, second);
    Snoc(START, first + second, e);
    events, k := first + second + [e], |first|;
    assert events[..k] == first;
    assert Next(Put(s, 1, NetDeleting(1)), e) == Try(Put(s, 1, NetDeleting(1)), 1, DeleteNetwork(s.db, 1));
  }

  /** A subnet created between the check and the locked step of a network delete is lost. */
  lemma NetworkDeleteTakesLateRow() returns (events: seq<Event>, k: nat)
    ensures k <= |events| && 10 in Interleave(START, events[..k]).db.subnets
    ensures Closed(Interleave(START, events[..k]).db.subnets)
    ensures Interleave(START, events).db == EMPTY
  {
    var first := TraceToNetwork();
    var second := TraceToNetDelete(AfterNetwork());
    var s := Put(AfterNetwork(), 1, NetDeleting(1));
    var third := ParentSteps(s);
    var t := State(AfterParent().db, AfterParent().history, s.clients);
    var e := Event(1, CommitNetDelete);
    NetworkGoes(t, 1);
    Append(START, first, second);
    Append(START, first + second, third);
    Snoc(START, first + second + third, e);
    events, k := first + second + third + [e], |first + second + third|;
    assert events[..k] == first + second + third;
  }
}
