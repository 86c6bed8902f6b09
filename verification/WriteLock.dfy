/** The write mutex of a SQLite store.  Every write runs under it, the search for an automatic address
    included: a search that never ends never gives it back.  Reads go on; no write does.
 */
module WriteLock {
  import opened Common
  import opened Words
  import opened Blocks
  import opened IpUtil
  import Capacity
  import opened Tables
  import opened Service
  import Filling
  import opened Concurrent
  import Interleavings

  /** The store, and the client that sits on the mutex in a search that does not end. */
  datatype Locked = Locked(state: State, holder: Option<nat>)

  const FREE: Locked := Locked(START, None)

  /** The steps that take the mutex. */
  predicate Writes(a: Action) {
    a.CommitRow? || a.CommitEdit? || a.CommitDelete? || a.CommitNetAdd? || a.CommitNetEdit? || a.CommitNetDelete?
  }

  /** The step enters a search that never ends. */
  ghost predicate Hangs(s: State, e: Event) {
    e.client in s.clients && s.clients[e.client].Ready? && e.action.CommitRow? && e.action.id !in s.history
    && CommitCreate(s.db, s.clients[e.client].ctx, s.clients[e.client].input, e.action.id).reply.NeverReturns?
  }

  /** While a client hangs, it takes no step, and nobody gets the mutex. */
  ghost function LockedNext(l: Locked, e: Event): Locked {
    if l.holder == Some(e.client) || (l.holder.Some? && Writes(e.action)) then l
    else Locked(Next(l.state, e), if Hangs(l.state, e) then Some(e.client) else l.holder)
  }

  ghost function LockedRun(l: Locked, events: seq<Event>): Locked
    decreases |events|
  {
    if events == [] then l else LockedNext(LockedRun(l, events[..|events| - 1]), events[|events| - 1])
  }

  /** Every run with the mutex is an interleaving in which some steps are not taken: whatever all
      interleavings keep, it keeps. */
  lemma {:induction false} RunIsInterleaving(l: Locked, events: seq<Event>) returns (taken: seq<Event>)
    ensures LockedRun(l, events).state == Interleave(l.state, taken)
    decreases |events|
  {
    if events == [] {
      taken := [];
    } else {
      var n := |events| - 1;
      taken := RunIsInterleaving(l, events[..n]);
      if LockedNext(LockedRun(l, events[..n]), events[n]) != LockedRun(l, events[..n]) {
        Interleavings.Snoc(l.state, taken, events[n]);
        taken := taken + [events[n]];
      }
    }
  }

  lemma ReadsLeaveTables(s: State, e: Event)
    requires !Writes(e.action)
    ensures Next(s, e).db == s.db && Next(s, e).history == s.history
  {
    if e.client in s.clients {
      var client := s.clients[e.client];
      Interleavings.OthersLeaveRows(s, e.client, client, e.action);
      ReadsLeaveNetworks(s, e.client, client, e.action);
      OtherStepsKeepHistory(s, e.client, client, e.action);
    }
  }

  lemma ReadsLeaveNetworks(s: State, c: nat, client: Client, a: Action)
    requires !Writes(a)
    ensures Continue(s, c, client, a).db.networks == s.db.networks
  {
  }

  /** Once a client hangs, it hangs for good, and no later event of any client changes a table. */
  lemma {:induction false} HeldForever(l: Locked, events: seq<Event>)
    requires l.holder.Some?
    ensures LockedRun(l, events).holder == l.holder && LockedRun(l, events).state.db == l.state.db
    decreases |events|
  {
    if events != [] {
      var n := |events| - 1;
      var before := LockedRun(l, events[..n]);
      HeldForever(l, events[..n]);
      if LockedNext(before, events[n]) != before {
        ReadsLeaveTables(before.state, events[n]);
      }
    }
  }

  /** In every interleaving, the locked step of a create hangs if and only if its parent is still there,
      its name is free, and it looks for an automatic address in a subnet that is full for the length and
      ends at 255.255.255.255. */
  lemma HangsIff(s: State, e: Event)
    requires Safe(s) && e.client in s.clients && s.clients[e.client].Ready?
    requires e.action.CommitRow? && e.action.id !in s.history
    ensures var r := s.clients[e.client];
            Hangs(s, e) <==>
              ParentExists(s.db, r.input.parent) && !NameTaken(s.db.subnets, r.ctx.networkUuid, Trim(r.input.name))
              && r.input.address == Blank && r.input.parent.kind == SubnetKind && Filling.FullAtTheTop(s.db, r.input)
  {
    var r := s.clients[e.client];
    StaleContextIsRight(s, e.client);
    SubTableIsForest(s.history, s.db.subnets);
    if ParentExists(s.db, r.input.parent) {
      SiblingBlocksAreValid(s.db.subnets, r.input.parent);
      Filling.CandidateDiverges(s.db, r.ctx, r.input);
      Filling.CommitDiverges(s.db, r.ctx, r.input, e.action.id);
    }
  }

  // ---- a run that stops the store ----------------------------------------------------

  /** The upper half of the address space. */
  const TOP: Prefix := Prefix(0x8000_0000, 1)

  lemma TopIsAtTheTop()
    ensures WellFormed(TOP) && Masked(TOP) == TOP && LastAddr(TOP) == MAX_WORD
  {
    Pow2Of32();
    assert Pow2(32) == 2 * Pow2(31);
    PowerAligned(31, 31);
    MaskedIsWellFormed(TOP);
    LastAddrIsLast(TOP);
  }

  function TopInput(name: string, parent: Parent): CreateInput {
    CreateInput(name, "", 1, Text(IPv4(0x8000_0000)), None, parent)
  }

  const NET: Parent := Parent(NetworkKind, 1)
  const TEN: Parent := Parent(SubnetKind, 10)
  const AUTO: CreateInput := CreateInput("a", "", 1, Blank, None, TEN)

  lemma TopIsAdmissible(db: Db, parent: Parent)
    requires ParentExists(db, parent) && ChildrenOf(db.subnets, parent) == {}
    requires parent.kind == SubnetKind ==> Block(db.subnets[parent.uuid].subnet) == TOP
    ensures Filling.Admissible(db, parent, TOP)
  {
    TopIsAtTheTop();
  }

  function TopRow(name: string, parent: Parent): Row {
    Row(1, Subnet(name, "", 1, 0x8000_0000, IPv4Family, parent))
  }

  lemma TopIsChosen(db: Db, name: string, parent: Parent, id: Uuid)
    requires Inv(db) && ChildrenOf(db.subnets, parent) == {}
    requires Filling.Creatable(db, TopInput(name, parent), id)
    requires parent.kind == SubnetKind ==> Block(db.subnets[parent.uuid].subnet) == TOP
    ensures CreateSubnet(db, TopInput(name, parent), id).reply.Done?
    ensures Block(CreateSubnet(db, TopInput(name, parent), id).reply.value) == TOP
  {
    TopIsAtTheTop();
    TopIsAdmissible(db, parent);
    Filling.ExplicitCreateSucceedsIff(db, TopInput(name, parent), id, 0x8000_0000);
  }

  /** A create of the upper half under a childless parent that holds it. */
  lemma TopIsCreated(db: Db, name: string, parent: Parent, id: Uuid)
    requires Inv(db) && ChildrenOf(db.subnets, parent) == {}
    requires Filling.Creatable(db, TopInput(name, parent), id) && Trim(name) == name
    requires parent.kind == SubnetKind ==> Block(db.subnets[parent.uuid].subnet) == TOP
    requires Filling.TargetNetwork(db, parent) == 1
    ensures CreateSubnet(db, TopInput(name, parent), id).reply.Done?
    ensures CreateSubnet(db, TopInput(name, parent), id).db == db.(subnets := db.subnets[id := TopRow(name, parent)])
  {
    TopIsChosen(db, name, parent, id);
    Filling.NetworkIsLive(db, parent);
    Filling.CreatableCommits(db, TopInput(name, parent), id);
    assert Trim("") == "";
  }

  ghost function Rows1(): Rows {
    map[10 := TopRow("p", NET)]
  }

  ghost function Rows2(): Rows {
    map[10 := TopRow("p", NET), 11 := TopRow("c", TEN)]
  }

  ghost function Networks(): map<Uuid, Network> {
    map[1 := Network("n", "")]
  }

  /** The run so far has left these tables, nobody in the middle of a call, and few uuids used. */
  ghost predicate Reached(events: seq<Event>, rows: Rows, used: set<Uuid>) {
    var s := Interleave(START, events);
    s.db == Db(Networks(), rows) && s.clients == map[] && s.history.Keys <= used && Inv(s.db)
  }

  lemma ReachesNetwork() returns (events: seq<Event>)
    ensures Reached(events, map[], {})
  {
    events := Interleavings.TraceToNetwork();
    InterleavedInvariants(events);
  }

  /** One more create, all by itself. */
  lemma ReachesMore(before: seq<Event>, rows: Rows, used: set<Uuid>, input: CreateInput, id: Uuid, after: Rows)
    returns (events: seq<Event>)
    requires Reached(before, rows, used) && id !in used
    requires CreateSubnet(Db(Networks(), rows), input, id).reply.Done?
    requires CreateSubnet(Db(Networks(), rows), input, id).db == Db(Networks(), after)
    ensures Reached(events, after, used + {id})
  {
    var s := Interleave(START, before);
    SafeFromStart(before);
    var more := Interleavings.CreateAloneIsAtomic(s, 0, input, id);
    Interleavings.Append(START, before, more);
    CreateKeepsInv(s.db, input, id);
    events := before + more;
  }

  lemma ParentIsCreatable(db: Db)
    requires db == Db(Networks(), map[])
    ensures Filling.Creatable(db, TopInput("p", NET), 10) && Filling.TargetNetwork(db, NET) == 1
    ensures ChildrenOf(db.subnets, NET) == {}
  {
    assert Trim("p") == "p";
  }

  lemma ParentFits(db: Db)
    requires db == Db(Networks(), map[]) && Inv(db)
    ensures CreateSubnet(db, TopInput("p", NET), 10).reply.Done?
    ensures CreateSubnet(db, TopInput("p", NET), 10).db == Db(Networks(), Rows1())
  {
    ParentIsCreatable(db);
    assert Trim("p") == "p";
    TopIsCreated(db, "p", NET, 10);
  }

  lemma ChildIsCreatable(db: Db)
    requires db == Db(Networks(), Rows1())
    ensures Filling.Creatable(db, TopInput("c", TEN), 11) && Filling.TargetNetwork(db, TEN) == 1
    ensures ChildrenOf(db.subnets, TEN) == {} && Block(db.subnets[10].subnet) == TOP
  {
    assert Trim("c") == "c" && "c"[0] != "p"[0];
  }

  lemma ChildFits(db: Db)
    requires db == Db(Networks(), Rows1()) && Inv(db)
    ensures CreateSubnet(db, TopInput("c", TEN), 11).reply.Done?
    ensures CreateSubnet(db, TopInput("c", TEN), 11).db == Db(Networks(), Rows2())
  {
    ChildIsCreatable(db);
    assert Trim("c") == "c";
    TopIsCreated(db, "c", TEN, 11);
    assert db.subnets[11 := TopRow("c", TEN)] == Rows2();
  }

  /** Subnet 10 has its child 11 on all its addresses, up to the last of all. */
  lemma NoRoomBelowTen(db: Db)
    requires db == Db(Networks(), Rows2()) && AllFit(db.subnets)
    ensures Filling.FullAtTheTop(db, AUTO)
  {
    TopIsAtTheTop();
    OnlyTopIsTaken(db.subnets);
    assert ToSet([TOP]) == {TOP};
    Capacity.CountingBoundIsTight(TOP);
  }

  lemma OnlyTopIsTaken(rows: Rows)
    requires rows == Rows2() && AllFit(rows)
    ensures SiblingBlocks(rows, TEN) == {TOP}
  {
    assert 11 in ChildrenOf(rows, TEN);
    ChildBlockIsMasked(rows, TEN, 11);
    forall b | b in SiblingBlocks(rows, TEN)
      ensures b == TOP
    {
      var id := TakenIsChild(rows, TEN, b);
    }
  }

  lemma AutoIsAllowed(db: Db)
    requires db == Db(Networks(), Rows2())
    ensures CreateRefusal(AUTO) == None && ParentExists(db, TEN) && Filling.TargetNetwork(db, TEN) == 1
    ensures !NameTaken(db.subnets, 1, Trim(AUTO.name))
  {
    assert Trim("a") == "a" && "a"[0] != "p"[0] && "a"[0] != "c"[0];
  }

  lemma AutoNeverReturns(db: Db)
    requires db == Db(Networks(), Rows2()) && Inv(db)
    ensures CreateRefusal(AUTO) == None && CreateSubnet(db, AUTO, 12).reply.NeverReturns?
  {
    AutoIsAllowed(db);
    NoRoomBelowTen(db);
    Filling.CreateNeverReturnsIff(db, AUTO, 12);
  }

  /** A run with the mutex either has a client hanging, or is the plain interleaving. */
  lemma {:induction false} HangsOrNot(events: seq<Event>)
    ensures LockedRun(FREE, events).holder.Some? || LockedRun(FREE, events) == Locked(Interleave(START, events), None)
    decreases |events|
  {
    if events != [] {
      HangsOrNot(events[..|events| - 1]);
    }
  }

  lemma ReadyHangs(s: State, ctx: Context)
    requires CreateRefusal(AUTO) == None && ResolveParentContext(s.db, TEN) == Done(ctx)
    requires CreateSubnet(s.db, AUTO, 12).reply.NeverReturns? && 12 !in s.history
    ensures Hangs(Put(s, 0, Ready(AUTO, ctx)), Event(0, CommitRow(12)))
  {
    assert CreateSubnet(s.db, AUTO, 12) == CommitCreate(s.db, ctx, AUTO, 12);
  }

  lemma ReadyAfterReads(s: State) returns (ctx: Context)
    requires Inv(s.db) && TEN.uuid in s.db.subnets
    ensures ResolveParentContext(s.db, TEN) == Done(ctx)
    ensures Interleavings.AfterReads(s, 0, AUTO) == Put(s, 0, Ready(AUTO, ctx))
  {
    ContextIsRight(s.db, TEN);
    ctx := ResolveParentContext(s.db, TEN).value;
  }

  lemma ReachedAuto(events: seq<Event>)
    requires Reached(events, Rows2(), {10, 11})
    ensures var s := Interleave(START, events);
            Safe(s) && Inv(s.db) && s.clients == map[] && 12 !in s.history && TEN.uuid in s.db.subnets
            && CreateRefusal(AUTO) == None && CreateSubnet(s.db, AUTO, 12).reply.NeverReturns?
  {
    SafeFromStart(events);
    AutoNeverReturns(Interleave(START, events).db);
  }

  /** The automatic create, up to the write mutex. */
  lemma TraceToHanging(before: seq<Event>) returns (events: seq<Event>)
    requires Reached(before, Rows2(), {10, 11})
    ensures Hangs(Interleave(START, events), Event(0, CommitRow(12)))
  {
    ReachedAuto(before);
    events := AutoHangs(Interleave(START, before), before);
  }

  lemma AutoHangs(s: State, before: seq<Event>) returns (events: seq<Event>)
    requires s == Interleave(START, before) && Safe(s) && Inv(s.db) && 0 !in s.clients && 12 !in s.history
    requires TEN.uuid in s.db.subnets && CreateRefusal(AUTO) == None && CreateSubnet(s.db, AUTO, 12).reply.NeverReturns?
    ensures Hangs(Interleave(START, events), Event(0, CommitRow(12)))
  {
    var more := Interleavings.ReadsAlone(s, 0, AUTO);
    var ctx := ReadyAfterReads(s);
    Interleavings.Append(START, before, more);
    events := before + more;
    ReadyHangs(s, ctx);
  }

  lemma SafeFromStart(events: seq<Event>)
    ensures Safe(Interleave(START, events))
  {
    StartIsSafe();
    InterleavingsAreSafe(START, events);
  }

  lemma TraceToFirst() returns (events: seq<Event>)
    ensures Reached(events, Rows1(), {10})
  {
    var zero := ReachesNetwork();
    ParentFits(Interleave(START, zero).db);
    events := ReachesMore(zero, map[], {}, TopInput("p", NET), 10, Rows1());
    assert {} + {10} == {10};
  }

  lemma SecondStep(before: seq<Event>)
    requires Reached(before, Rows1(), {10})
    ensures CreateSubnet(Db(Networks(), Rows1()), TopInput("c", TEN), 11).reply.Done?
    ensures CreateSubnet(Db(Networks(), Rows1()), TopInput("c", TEN), 11).db == Db(Networks(), Rows2())
  {
    ChildFits(Db(Networks(), Rows1()));
  }

  lemma TraceToFull() returns (events: seq<Event>)
    ensures Reached(events, Rows2(), {10, 11})
  {
    var one := TraceToFirst();
    SecondStep(one);
    assert {10} + {11} == {10, 11};
    events := ReachesMore(one, Rows1(), {10}, TopInput("c", TEN), 11, Rows2());
  }

  lemma HangingStays(events: seq<Event>)
    requires Hangs(Interleave(START, events), Event(0, CommitRow(12)))
    ensures LockedRun(FREE, events + [Event(0, CommitRow(12))]).holder.Some?
  {
    HangsOrNot(events);
    assert (events + [Event(0, CommitRow(12))])[..|events|] == events;
  }

  /** A network, a subnet at the top of the address space, a child on all of it, and a request for an
      automatic address below it: after that no table of the store ever changes again. */
  lemma StoreStops() returns (events: seq<Event>)
    ensures LockedRun(FREE, events).holder.Some?
    ensures forall more :: LockedRun(LockedRun(FREE, events), more).state.db == LockedRun(FREE, events).state.db
  {
    var full := TraceToFull();
    var hanging := TraceToHanging(full);
    HangingStays(hanging);
    events := hanging + [Event(0, CommitRow(12))];
    forall more
      ensures LockedRun(LockedRun(FREE, events), more).state.db == LockedRun(FREE, events).state.db
    {
      HeldForever(LockedRun(FREE, events), more);
    }
  }
}
