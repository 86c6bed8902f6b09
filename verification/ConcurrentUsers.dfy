/** User calls of many clients at once.  Reading the record, checking, counting the admins and
    writing are steps of their own; only the write is one transaction.  A client also keeps the
    record it read and the count it got, so that a step can be judged by what its client knew.
 */
module ConcurrentUsers {
  import opened Common
  import opened Users

  /** Where a client is in the middle of a call.  A count is there only if the guard was consulted. */
  datatype Client =
    | Booting(input: CreateInput)                                            // has seen an empty table
    | Creating(user: User)                                                   // has seen its name free
    | Removing(id: Uuid, seen: User)                                         // delete: has read the record
    | Removal(id: Uuid, seen: User, counted: Option<nat>)                    // delete: past the guard
    | Drafting(id: Uuid, seen: User, change: UpdateInput)                    // update: has read the record
    | Rewriting(id: Uuid, seen: User, changed: User)                         // update: has the new record
    | Rewrite(id: Uuid, seen: User, changed: User, counted: Option<nat>)     // update or password: past the guard

  datatype State = State(users: UserTable, clients: map<nat, Client>)

  datatype Action =
    | StartBootstrap(input: CreateInput, tokenFits: bool)
    | StartCreate(input: CreateInput)
    | CommitCreate(id: Uuid)
    | StartDelete(id: Uuid)
    | StartUpdate(id: Uuid, change: UpdateInput)
    | StartPassword(id: Uuid, matches: bool, password: Password)
    | Draft
    | Guard
    | CommitDelete
    | CommitWrite
    | GiveUp

  datatype Event = Event(client: nat, action: Action)

  const START: State := State(map[], map[])

  function Put(s: State, c: nat, client: Client): State {
    s.(clients := s.clients[c := client])
  }

  function Done(s: State, c: nat, users: UserTable): State {
    State(users, s.clients - {c})
  }

  /** The checks of a create and its look for the name. */
  function AfterCheck(cs: Charset, s: State, c: nat, input: CreateInput): State {
    match NewUser(cs, s.users, input)
    case Err(_) => Done(s, c, s.users)
    case Ok(user) => Put(s, c, Creating(user))
  }

  function Begin(cs: Charset, s: State, c: nat, a: Action): State {
    match a
    case StartBootstrap(input, tokenFits) =>
      if |s.users| == 0 && tokenFits then Put(s, c, Booting(input.(role := Role(Admin), enabled := None))) else s
    case StartCreate(input) => AfterCheck(cs, s, c, input)
    case StartDelete(id) => if id in s.users then Put(s, c, Removing(id, s.users[id])) else s
    case StartUpdate(id, change) => if id in s.users then Put(s, c, Drafting(id, s.users[id], change)) else s
    case StartPassword(id, matches, password) =>
      if id !in s.users then s
      else (match WithPassword(s.users[id], matches, password)
            case Err(_) => s
            case Ok(user) => Put(s, c, Rewrite(id, s.users[id], user, None)))
    case _ => s
  }

  /** The guard of a delete: a record read as an enabled admin needs a count of more than one. */
  function GuardDelete(s: State, c: nat, r: Client): State
    requires r.Removing?
  {
    if !IsEnabledAdmin(r.seen) then Put(s, c, Removal(r.id, r.seen, None))
    else if |EnabledAdmins(s.users)| <= 1 then Done(s, c, s.users)
    else Put(s, c, Removal(r.id, r.seen, Some(|EnabledAdmins(s.users)|)))
  }

  /** The guard of an update: so does a change that ends it. */
  function GuardUpdate(s: State, c: nat, r: Client): State
    requires r.Rewriting?
  {
    if !(IsEnabledAdmin(r.seen) && !IsEnabledAdmin(r.changed)) then Put(s, c, Rewrite(r.id, r.seen, r.changed, None))
    else if |EnabledAdmins(s.users)| <= 1 then Done(s, c, s.users)
    else Put(s, c, Rewrite(r.id, r.seen, r.changed, Some(|EnabledAdmins(s.users)|)))
  }

  function AfterDraft(cs: Charset, s: State, c: nat, d: Client): State
    requires d.Drafting?
  {
    match Edited(cs, s.users, d.id, d.seen, d.change)
    case Err(_) => Done(s, c, s.users)
    case Ok(user) => Put(s, c, Rewriting(d.id, d.seen, user))
  }

  function Continue(cs: Charset, s: State, c: nat, client: Client, a: Action): State {
    if a.GiveUp? then Done(s, c, s.users)
    else match client
      case Booting(input) => if a.Draft? then AfterCheck(cs, s, c, input) else s
      case Creating(user) => if a.CommitCreate? then Done(s, c, InsertUser(cs, s.users, a.id, user).users) else s
      case Removing(_, _) => if a.Guard? then GuardDelete(s, c, client) else s
      case Removal(id, _, _) => if a.CommitDelete? then Done(s, c, s.users - {id}) else s
      case Drafting(_, _, _) => if a.Draft? then AfterDraft(cs, s, c, client) else s
      case Rewriting(_, _, _) => if a.Guard? then GuardUpdate(s, c, client) else s
      case Rewrite(id, _, changed, _) =>
        if a.CommitWrite? then Done(s, c, SaveUser(cs, s.users, id, changed).users) else s
  }

  function Next(cs: Charset, s: State, e: Event): State {
    if e.client in s.clients then Continue(cs, s, e.client, s.clients[e.client], e.action)
    else Begin(cs, s, e.client, e.action)
  }

  function Interleave(cs: Charset, s: State, events: seq<Event>): State
    decreases |events|
  {
    if events == [] then s else Next(cs, Interleave(cs, s, events[..|events| - 1]), events[|events| - 1])
  }

  // ---- what every interleaving keeps -------------------------------------------------

  ghost predicate ClientFits(cs: Charset, client: Client) {
    match client
    case Booting(_) => true
    case Creating(user) => Lowered(cs, user.username)
    case Removing(_, _) => true
    case Removal(_, seen, counted) => if counted.Some? then counted.value > 1 else !IsEnabledAdmin(seen)
    case Drafting(_, seen, _) => Lowered(cs, seen.username)
    case Rewriting(_, _, changed) => Lowered(cs, changed.username)
    case Rewrite(_, seen, changed, counted) =>
      Lowered(cs, changed.username)
      && if counted.Some? then counted.value > 1 else IsEnabledAdmin(seen) ==> IsEnabledAdmin(changed)
  }

  ghost predicate Safe(cs: Charset, s: State) {
    Tidy(cs, s.users) && forall c :: c in s.clients ==> ClientFits(cs, s.clients[c])
  }

  lemma PutIsSafe(cs: Charset, s: State, c: nat, client: Client)
    requires Safe(cs, s) && ClientFits(cs, client)
    ensures Safe(cs, Put(s, c, client))
  {
  }

  lemma DoneIsSafe(cs: Charset, s: State, c: nat, users: UserTable)
    requires Safe(cs, s) && Tidy(cs, users)
    ensures Safe(cs, Done(s, c, users))
  {
  }

  lemma AfterCheckIsSafe(cs: Charset, s: State, c: nat, input: CreateInput)
    requires Safe(cs, s)
    ensures Safe(cs, AfterCheck(cs, s, c, input))
  {
    NormalizedIsLowered(cs, input.username);
    DoneIsSafe(cs, s, c, s.users);
    if NewUser(cs, s.users, input).Ok? {
      PutIsSafe(cs, s, c, Creating(NewUser(cs, s.users, input).value));
    }
  }

  lemma BeginIsSafe(cs: Charset, s: State, c: nat, a: Action)
    requires Safe(cs, s)
    ensures Safe(cs, Begin(cs, s, c, a))
  {
    if a.StartCreate? {
      AfterCheckIsSafe(cs, s, c, a.input);
    } else if Begin(cs, s, c, a) != s {
      PutIsSafe(cs, s, c, Begin(cs, s, c, a).clients[c]);
    }
  }

  lemma EditedIsLowered(cs: Charset, users: UserTable, id: Uuid, seen: User, change: UpdateInput)
    requires Lowered(cs, seen.username) && Edited(cs, users, id, seen, change).Ok?
    ensures Lowered(cs, Edited(cs, users, id, seen, change).value.username)
  {
    if change.username.Some? {
      NormalizedIsLowered(cs, change.username.value);
    }
  }

  lemma SaveKeepsTidy(cs: Charset, users: UserTable, id: Uuid, user: User)
    requires Tidy(cs, users) && Lowered(cs, user.username)
    ensures Tidy(cs, SaveUser(cs, users, id, user).users)
  {
    if SaveUser(cs, users, id, user).reply.Ok? {
      PutKeepsTidy(cs, users, id, user);
    }
  }

  lemma InsertKeepsTidy(cs: Charset, users: UserTable, id: Uuid, user: User)
    requires Tidy(cs, users) && Lowered(cs, user.username)
    ensures Tidy(cs, InsertUser(cs, users, id, user).users)
  {
    if InsertUser(cs, users, id, user).reply.Ok? {
      assert !KeyTaken(cs, users, user.username, None);
      PutKeepsTidy(cs, users, id, user);
    }
  }

  lemma RemovalKeepsTidy(cs: Charset, users: UserTable, id: Uuid)
    requires Tidy(cs, users)
    ensures Tidy(cs, users - {id})
  {
    var after := users - {id};
    forall a, b
      ensures !SameKey(cs, after, a, b)
    {
      assert !SameKey(cs, users, a, b);
    }
  }

  lemma ContinueIsSafe(cs: Charset, s: State, c: nat, a: Action)
    requires Safe(cs, s) && c in s.clients
    ensures Safe(cs, Continue(cs, s, c, s.clients[c], a))
  {
    var client := s.clients[c];
    assert ClientFits(cs, client);
    DoneIsSafe(cs, s, c, s.users);
    match client {
      case Booting(input) => AfterCheckIsSafe(cs, s, c, input);
      case Creating(user) =>
        if a.CommitCreate? {
          InsertKeepsTidy(cs, s.users, a.id, user);
        }
      case Removal(id, _, _) => RemovalKeepsTidy(cs, s.users, id);
      case Drafting(id, seen, change) =>
        if Edited(cs, s.users, id, seen, change).Ok? {
          EditedIsLowered(cs, s.users, id, seen, change);
        }
      case Rewrite(id, _, changed, _) => SaveKeepsTidy(cs, s.users, id, changed);
      case _ =>
    }
  }

  lemma {:induction false} InterleavingsAreSafe(cs: Charset, events: seq<Event>)
    ensures Safe(cs, Interleave(cs, START, events))
    decreases |events|
  {
    if events != [] {
      var before := Interleave(cs, START, events[..|events| - 1]);
      InterleavingsAreSafe(cs, events[..|events| - 1]);
      var e := events[|events| - 1];
      if e.client in before.clients {
        ContinueIsSafe(cs, before, e.client, e.action);
      } else {
        BeginIsSafe(cs, before, e.client, e.action);
      }
    }
  }

  /** However the calls interleave, stored usernames stay pairwise different. */
  lemma InterleavedNamesDiffer(cs: Charset, events: seq<Event>)
    ensures NamesDiffer(Interleave(cs, START, events).users)
  {
    InterleavingsAreSafe(cs, events);
    TidyNamesDiffer(cs, Interleave(cs, START, events).users);
  }

  // ---- how the last admin is lost ----------------------------------------------------

  /** The step removes the only enabled admin, or writes a record over it that is none. */
  ghost predicate TakesOnlyAdmin(cs: Charset, s: State, e: Event) {
    e.client in s.clients &&
    match s.clients[e.client]
    case Removal(id, _, _) => e.action.CommitDelete? && EnabledAdmins(s.users) == {id}
    case Rewrite(id, _, changed, _) =>
      e.action.CommitWrite? && EnabledAdmins(s.users) == {id} && !IsEnabledAdmin(changed)
      && !KeyTaken(cs, s.users, changed.username, Some(id))
    case _ => false
  }

  /** The client counted more than one enabled admin, or did not count because the record it read was
      not one. */
  predicate WasMisled(client: Client) {
    (client.Removal? || client.Rewrite?)
    && if client.counted.Some? then client.counted.value > 1 else !IsEnabledAdmin(client.seen)
  }

  lemma AddingKeepsAdmins(cs: Charset, users: UserTable, id: Uuid, user: User)
    ensures EnabledAdmins(users) <= EnabledAdmins(InsertUser(cs, users, id, user).users)
  {
  }

  lemma RemovingLoses(users: UserTable, id: Uuid)
    requires EnabledAdmins(users) != {}
    ensures EnabledAdmins(users - {id}) == EnabledAdmins(users) - {id}
    ensures EnabledAdmins(users - {id}) == {} <==> EnabledAdmins(users) == {id}
  {
  }

  lemma WritingLoses(cs: Charset, users: UserTable, id: Uuid, user: User)
    requires EnabledAdmins(users) != {}
    ensures EnabledAdmins(SaveUser(cs, users, id, user).users) == {} <==>
              EnabledAdmins(users) == {id} && !IsEnabledAdmin(user) && !KeyTaken(cs, users, user.username, Some(id))
  {
    var after := SaveUser(cs, users, id, user).users;
    if after != users {
      forall u
        ensures u in EnabledAdmins(after) <==> if u == id then IsEnabledAdmin(user) else u in EnabledAdmins(users)
      {
      }
      if IsEnabledAdmin(user) {
        assert id in EnabledAdmins(after);
      } else {
        assert EnabledAdmins(after) == EnabledAdmins(users) - {id};
      }
    }
    assert EnabledAdmins(users) == {id} ==> id in EnabledAdmins(users);
  }

  /** A step loses the last enabled admin if and only if it removes or demotes the only one left; and
      then its client has counted more, or has read a record that was no enabled admin. */
  lemma LastAdminLostIff(cs: Charset, s: State, e: Event)
    requires Safe(cs, s) && EnabledAdmins(s.users) != {}
    ensures EnabledAdmins(Next(cs, s, e).users) == {} <==> TakesOnlyAdmin(cs, s, e)
    ensures TakesOnlyAdmin(cs, s, e) ==> WasMisled(s.clients[e.client])
  {
    if e.client in s.clients {
      var client := s.clients[e.client];
      assert ClientFits(cs, client);
      match client {
        case Creating(user) =>
          if e.action.CommitCreate? {
            AddingKeepsAdmins(cs, s.users, e.action.id, user);
          }
        case Removal(id, _, _) => RemovingLoses(s.users, id);
        case Rewrite(id, _, changed, _) => WritingLoses(cs, s.users, id, changed);
        case _ =>
      }
    }
  }

  ghost predicate LosingStep(cs: Charset, events: seq<Event>, k: nat)
    requires k < |events|
  {
    TakesOnlyAdmin(cs, Interleave(cs, START, events[..k]), events[k])
  }

  lemma OneStepRemains(cs: Charset, events: seq<Event>)
    requires events != [] && !LosingStep(cs, events, |events| - 1)
    requires EnabledAdmins(Interleave(cs, START, events[..|events| - 1]).users) != {}
    ensures EnabledAdmins(Interleave(cs, START, events).users) != {}
  {
    InterleavingsAreSafe(cs, events[..|events| - 1]);
    LastAdminLostIff(cs, Interleave(cs, START, events[..|events| - 1]), events[|events| - 1]);
  }

  ghost predicate NoLossFrom(cs: Charset, events: seq<Event>, k: nat) {
    forall j :: k <= j < |events| ==> !LosingStep(cs, events, j)
  }

  lemma NoLossBefore(cs: Charset, events: seq<Event>, k: nat)
    requires events != [] && NoLossFrom(cs, events, k)
    ensures NoLossFrom(cs, events[..|events| - 1], k)
  {
    var init := events[..|events| - 1];
    forall j | k <= j < |init|
      ensures !LosingStep(cs, init, j)
    {
      assert init[..j] == events[..j] && !LosingStep(cs, events, j);
    }
  }

  /** Once there is an enabled admin, one remains as long as no step takes the only one. */
  lemma {:induction false} AdminRemains(cs: Charset, events: seq<Event>, k: nat)
    requires k <= |events| && EnabledAdmins(Interleave(cs, START, events[..k]).users) != {}
    requires NoLossFrom(cs, events, k)
    ensures EnabledAdmins(Interleave(cs, START, events).users) != {}
    decreases |events|
  {
    if k == |events| {
      assert events[..k] == events;
    } else {
      assert events[..|events| - 1][..k] == events[..k];
      NoLossBefore(cs, events, k);
      AdminRemains(cs, events[..|events| - 1], k);
      OneStepRemains(cs, events);
    }
  }

  // ---- what a client knows was once true ---------------------------------------------

  /** In some earlier state the record was what the client read. */
  ghost predicate WasRead(cs: Charset, events: seq<Event>, id: Uuid, seen: User) {
    exists k :: 0 <= k <= |events| && RecordAt(cs, events, k, id, seen)
  }

  ghost predicate RecordAt(cs: Charset, events: seq<Event>, k: nat, id: Uuid, seen: User)
    requires k <= |events|
  {
    var users := Interleave(cs, START, events[..k]).users;
    id in users && users[id] == seen
  }

  /** In some earlier state there were that many enabled admins. */
  ghost predicate WasCounted(cs: Charset, events: seq<Event>, n: nat) {
    exists k :: 0 <= k <= |events| && CountAt(cs, events, k) == n
  }

  ghost function CountAt(cs: Charset, events: seq<Event>, k: nat): nat
    requires k <= |events|
  {
    |EnabledAdmins(Interleave(cs, START, events[..k]).users)|
  }

  /** The call is about an existing user. */
  predicate HasRecord(client: Client) {
    !client.Booting? && !client.Creating?
  }

  ghost predicate Remembers(cs: Charset, events: seq<Event>, client: Client) {
    (HasRecord(client) ==> WasRead(cs, events, client.id, client.seen))
    && ((client.Removal? || client.Rewrite?) && client.counted.Some? ==> WasCounted(cs, events, client.counted.value))
  }

  lemma RemembersLonger(cs: Charset, events: seq<Event>, client: Client)
    requires events != [] && Remembers(cs, events[..|events| - 1], client)
    ensures Remembers(cs, events, client)
  {
    var init := events[..|events| - 1];
    if HasRecord(client) {
      var k :| 0 <= k <= |init| && RecordAt(cs, init, k, client.id, client.seen);
      assert init[..k] == events[..k];
      assert RecordAt(cs, events, k, client.id, client.seen);
    }
    if (client.Removal? || client.Rewrite?) && client.counted.Some? {
      var k :| 0 <= k <= |init| && CountAt(cs, init, k) == client.counted.value;
      assert init[..k] == events[..k];
      assert CountAt(cs, events, k) == client.counted.value;
    }
  }

  function CountedBy(client: Client): Option<nat> {
    if client.Removal? || client.Rewrite? then client.counted else None
  }

  lemma BeginTeaches(cs: Charset, s: State, c: nat, a: Action, d: nat)
    requires d in Begin(cs, s, c, a).clients && c !in s.clients
    ensures var client := Begin(cs, s, c, a).clients[d];
            if d in s.clients then client == s.clients[d]
            else
              CountedBy(client) == None
              && (HasRecord(client) ==> client.id in s.users && client.seen == s.users[client.id])
  {
  }

  lemma ContinueTeaches(cs: Charset, s: State, c: nat, a: Action, d: nat)
    requires c in s.clients && d in Continue(cs, s, c, s.clients[c], a).clients
    ensures var client := Continue(cs, s, c, s.clients[c], a).clients[d];
            d in s.clients && GoesOn(s, s.clients[d], client)
  {
  }

  /** A client goes on with the record it has read; a new count is taken from the table. */
  ghost predicate GoesOn(s: State, before: Client, client: Client) {
    (HasRecord(client) <==> HasRecord(before))
    && (HasRecord(client) ==> client.id == before.id && client.seen == before.seen)
    && (CountedBy(client) == CountedBy(before) || CountedBy(client) == Some(|EnabledAdmins(s.users)|))
  }

  lemma StepTeaches(cs: Charset, s: State, e: Event, c: nat)
    requires c in Next(cs, s, e).clients
    ensures var client := Next(cs, s, e).clients[c];
            if c in s.clients then GoesOn(s, s.clients[c], client)
            else
              CountedBy(client) == None
              && (HasRecord(client) ==> client.id in s.users && client.seen == s.users[client.id])
  {
    if e.client in s.clients {
      ContinueTeaches(cs, s, e.client, e.action, c);
    } else {
      BeginTeaches(cs, s, e.client, e.action, c);
    }
  }

  /** Whoever is in the middle of a call knows what was once true. */
  ghost predicate AllRemember(cs: Charset, events: seq<Event>, s: State) {
    forall c :: c in s.clients ==> Remembers(cs, events, s.clients[c])
  }

  lemma LearntNow(cs: Charset, events: seq<Event>, s: State, c: nat)
    requires events != [] && s == Interleave(cs, START, events[..|events| - 1])
    requires AllRemember(cs, events[..|events| - 1], s)
    requires c in Next(cs, s, events[|events| - 1]).clients
    ensures Remembers(cs, events, Next(cs, s, events[|events| - 1]).clients[c])
  {
    var n := |events| - 1;
    var client := Next(cs, s, events[n]).clients[c];
    StepTeaches(cs, s, events[n], c);
    if c in s.clients {
      RemembersLonger(cs, events, s.clients[c]);
    } else if HasRecord(client) {
      assert RecordAt(cs, events, n, client.id, client.seen);
    }
    assert CountAt(cs, events, n) == |EnabledAdmins(s.users)|;
  }

  /** In every interleaving, each client has read its record in some earlier state, and any count it
      holds was the number of enabled admins in some earlier state. */
  lemma {:induction false} ClientsRemember(cs: Charset, events: seq<Event>)
    ensures AllRemember(cs, events, Interleave(cs, START, events))
    decreases |events|
  {
    if events != [] {
      var s := Interleave(cs, START, events[..|events| - 1]);
      ClientsRemember(cs, events[..|events| - 1]);
      var t := Next(cs, s, events[|events| - 1]);
      forall c | c in t.clients
        ensures Remembers(cs, events, t.clients[c])
      {
        LearntNow(cs, events, s, c);
      }
    }
  }

  // ---- a client left alone -----------------------------------------------------------

  lemma Three(cs: Charset, s: State, e1: Event, e2: Event, e3: Event)
    ensures Interleave(cs, s, [e1, e2, e3]) == Next(cs, Next(cs, Next(cs, s, e1), e2), e3)
  {
    assert [e1, e2, e3][..2] == [e1, e2] && [e1, e2][..1] == [e1] && [e1][..0] == [];
    assert Interleave(cs, s, [e1]) == Next(cs, Interleave(cs, s, []), e1);
    assert Interleave(cs, s, [e1, e2]) == Next(cs, Interleave(cs, s, [e1]), e2);
  }

  /** A delete whose steps nobody interrupts is the call in one step, and its client is done. */
  lemma DeleteAlone(cs: Charset, s: State, c: nat, id: Uuid)
    requires c !in s.clients
    ensures Interleave(cs, s, [Event(c, StartDelete(id)), Event(c, Guard), Event(c, CommitDelete)])
         == State(DeleteUser(s.users, id).users, s.clients)
  {
    Three(cs, s, Event(c, StartDelete(id)), Event(c, Guard), Event(c, CommitDelete));
  }

  lemma GuardAndWrite(cs: Charset, s: State, c: nat, id: Uuid, user: User)
    requires c in s.clients && id in s.users && s.clients[c] == Rewriting(id, s.users[id], user)
    ensures Next(cs, Next(cs, s, Event(c, Guard)), Event(c, CommitWrite))
         == State(if IsEnabledAdmin(s.users[id]) && !IsEnabledAdmin(user) && |EnabledAdmins(s.users)| <= 1 then s.users
                  else SaveUser(cs, s.users, id, user).users,
                  s.clients - {c})
  {
  }

  /** So is an update, and a change of password. */
  lemma UpdateAlone(cs: Charset, s: State, c: nat, id: Uuid, change: UpdateInput)
    requires c !in s.clients
    ensures var events := [Event(c, StartUpdate(id, change)), Event(c, Draft), Event(c, Guard)];
            Next(cs, Interleave(cs, s, events), Event(c, CommitWrite))
            == State(UpdateUser(cs, s.users, id, change).users, s.clients)
  {
    var e1, e2 := Event(c, StartUpdate(id, change)), Event(c, Draft);
    Three(cs, s, e1, e2, Event(c, Guard));
    if id in s.users {
      var edited := Edited(cs, s.users, id, s.users[id], change);
      var s2 := Next(cs, Next(cs, s, e1), e2);
      if edited.Ok? {
        assert s2 == Put(Put(s, c, Drafting(id, s.users[id], change)), c, Rewriting(id, s.users[id], edited.value));
        GuardAndWrite(cs, s2, c, id, edited.value);
      } else {
        assert s2.clients == s.clients;
      }
    }
  }

  /** So is a create. */
  lemma CreateAlone(cs: Charset, s: State, c: nat, input: CreateInput, id: Uuid)
    requires c !in s.clients
    ensures Next(cs, Next(cs, s, Event(c, StartCreate(input))), Event(c, CommitCreate(id)))
         == State(CreateUser(cs, s.users, input, id).users, s.clients)
  {
  }

  lemma PasswordAlone(cs: Charset, s: State, c: nat, id: Uuid, matches: bool, password: Password)
    requires c !in s.clients
    ensures Next(cs, Next(cs, s, Event(c, StartPassword(id, matches, password))), Event(c, CommitWrite))
         == State(ChangePassword(cs, s.users, id, matches, password).users, s.clients)
  {
  }

  // ---- two runs that lose the last admin ---------------------------------------------

  lemma Snoc(cs: Charset, s: State, events: seq<Event>, e: Event)
    ensures Interleave(cs, s, events + [e]) == Next(cs, Interleave(cs, s, events), e)
  {
    assert (events + [e])[..|events|] == events;
  }

  lemma {:induction false} Append(cs: Charset, s: State, first: seq<Event>, second: seq<Event>)
    ensures Interleave(cs, s, first + second) == Interleave(cs, Interleave(cs, s, first), second)
    decreases |second|
  {
    if second == [] {
      assert first + second == first;
    } else {
      var init, e := second[..|second| - 1], second[|second| - 1];
      assert init + [e] == second && (first + init) + [e] == first + second;
      Append(cs, s, first, init);
      Snoc(cs, s, first + init, e);
      Snoc(cs, Interleave(cs, s, first), init, e);
    }
  }

  function Person(name: string, role: Role): User {
    User(name, "hash", "", "", role, true)
  }

  function WithRole(name: string, role: Role): CreateInput {
    Plain(name).(role := Role(role))
  }

  lemma PersonIsNew(users: UserTable, name: string, role: Role)
    requires NormalizeUsername(LETTERS, name) == Ok(name) && !KeyTaken(LETTERS, users, name, None)
    ensures NewUser(LETTERS, users, WithRole(name, role)) == Ok(Person(name, role))
  {
    EightLetters();
  }

  function Both(second: Role): UserTable {
    map[1 := Person("sa", Admin), 2 := Person("aa", second)]
  }

  lemma BothKeys(users: UserTable, second: User)
    requires users == map[1 := Person("sa", Admin), 2 := second] && second.username == "aa"
    ensures Key(LETTERS, "aa") != Key(LETTERS, "sa")
    ensures !KeyTaken(LETTERS, users, "aa", Some(2)) && !KeyTaken(LETTERS, ONE, "aa", None)
  {
    TwoLetters("sa");
    TwoLetters("aa");
    assert "sa"[0] != "aa"[0];
  }

  const ONE: UserTable := map[1 := Person("sa", Admin)]

  lemma TraceToOne() returns (events: seq<Event>)
    ensures Interleave(LETTERS, START, events) == State(ONE, map[])
  {
    TwoLetters("sa");
    var input := WithRole("sa", Admin);
    var e1, e2, e3 := Event(0, StartBootstrap(input, true)), Event(0, Draft), Event(0, CommitCreate(1));
    Three(LETTERS, START, e1, e2, e3);
    var s1 := State(map[], map[0 := Booting(input)]);
    var s2 := State(map[], map[0 := Creating(Person("sa", Admin))]);
    assert Next(LETTERS, START, e1) == s1;
    PersonIsNew(map[], "sa", Admin);
    assert Next(LETTERS, s1, e2) == s2;
    events := [e1, e2, e3];
  }

  lemma SecondStarts(second: Role)
    ensures Next(LETTERS, State(ONE, map[]), Event(0, StartCreate(WithRole("aa", second))))
         == State(ONE, map[0 := Creating(Person("aa", second))])
  {
    TwoLetters("aa");
    BothKeys(Both(second), Person("aa", second));
    PersonIsNew(ONE, "aa", second);
  }

  lemma SecondCommits(second: Role)
    ensures Next(LETTERS, State(ONE, map[0 := Creating(Person("aa", second))]), Event(0, CommitCreate(2)))
         == State(Both(second), map[])
  {
    BothKeys(Both(second), Person("aa", second));
    assert ONE[2 := Person("aa", second)] == Both(second);
  }

  /** Bootstrap makes user 1 an admin; then user 2 is created. */
  lemma TraceToBoth(second: Role) returns (events: seq<Event>)
    ensures Interleave(LETTERS, START, events) == State(Both(second), map[])
  {
    var first := TraceToOne();
    var e1, e2 := Event(0, StartCreate(WithRole("aa", second))), Event(0, CommitCreate(2));
    Snoc(LETTERS, START, first, e1);
    Snoc(LETTERS, START, first + [e1], e2);
    SecondStarts(second);
    SecondCommits(second);
    events := first + [e1] + [e2];
  }

  lemma AdminsOfBoth()
    ensures EnabledAdmins(Both(Admin)) == {1, 2} && EnabledAdmins(Both(Member)) == {1}
  {
  }

  /** A delete of user 1 past its guard. */
  lemma TraceToRemoval(s: State, c: nat) returns (events: seq<Event>)
    requires c !in s.clients && 1 in s.users && IsEnabledAdmin(s.users[1]) && |EnabledAdmins(s.users)| > 1
    ensures Interleave(LETTERS, s, events)
         == Put(s, c, Removal(1, s.users[1], Some(|EnabledAdmins(s.users)|)))
  {
    var e1, e2 := Event(c, StartDelete(1)), Event(c, Guard);
    Snoc(LETTERS, s, [], e1);
    Snoc(LETTERS, s, [] + [e1], e2);
    events := [] + [e1] + [e2];
  }

  /** An update past its guard. */
  lemma TraceToRewrite(s: State, c: nat, id: Uuid, change: UpdateInput, changed: User) returns (events: seq<Event>)
    requires c !in s.clients && id in s.users && Edited(LETTERS, s.users, id, s.users[id], change) == Ok(changed)
    requires IsEnabledAdmin(s.users[id]) && !IsEnabledAdmin(changed) ==> |EnabledAdmins(s.users)| > 1
    ensures Interleave(LETTERS, s, events)
         == Put(s, c, Rewrite(id, s.users[id], changed,
                              if IsEnabledAdmin(s.users[id]) && !IsEnabledAdmin(changed)
                              then Some(|EnabledAdmins(s.users)|) else None))
  {
    var e1, e2, e3 := Event(c, StartUpdate(id, change)), Event(c, Draft), Event(c, Guard);
    Three(LETTERS, s, e1, e2, e3);
    var seen := s.users[id];
    var s1 := Put(s, c, Drafting(id, seen, change));
    var s2 := Put(s, c, Rewriting(id, seen, changed));
    assert Next(LETTERS, s, e1) == s1;
    assert Next(LETTERS, s1, e2) == Put(s1, c, Rewriting(id, seen, changed)) == s2;
    assert Next(LETTERS, s2, e3) == GuardUpdate(s2, c, Rewriting(id, seen, changed));
    events := [e1, e2, e3];
  }

  const DISABLE: UpdateInput := UpdateInput(None, None, None, None, Some(false), None)
  const PROMOTE: UpdateInput := UpdateInput(None, None, None, Some(Role(Admin)), None, None)
  const RELABEL: UpdateInput := UpdateInput(None, Some("x"), None, None, None, None)

  const REMOVAL: Client := Removal(1, Person("sa", Admin), Some(2))
  const DISABLING: Client := Rewrite(2, Person("aa", Admin), Person("aa", Admin).(enabled := false), Some(2))
  const LABELLING: Client := Rewrite(2, Person("aa", Member), Person("aa", Member).(displayName := "x"), None)

  /** With user 1 gone, the write of user 2 goes through. */
  lemma RewriteLands(rewrite: Client)
    requires rewrite.Rewrite? && rewrite.id == 2
    requires rewrite.changed.username == "aa" && !IsEnabledAdmin(rewrite.changed)
    ensures Next(LETTERS, State(map[2 := Person("aa", Admin)], map[1 := rewrite]), Event(1, CommitWrite))
         == State(map[2 := rewrite.changed], map[])
    ensures EnabledAdmins(map[2 := rewrite.changed]) == {}
  {
    assert !KeyTaken(LETTERS, map[2 := Person("aa", Admin)], "aa", Some(2));
  }

  lemma RemovalLands(rewrite: Client)
    ensures Next(LETTERS, State(Both(Admin), map[0 := REMOVAL, 1 := rewrite]), Event(0, CommitDelete))
         == State(map[2 := Person("aa", Admin)], map[1 := rewrite])
  {
  }

  /** The delete of user 1 and the write of user 2, both past their guards, go through. */
  lemma BothWrite(before: seq<Event>, rewrite: Client) returns (events: seq<Event>)
    requires Interleave(LETTERS, START, before) == State(Both(Admin), map[0 := REMOVAL, 1 := rewrite])
    requires rewrite.Rewrite? && rewrite.id == 2
    requires rewrite.changed.username == "aa" && !IsEnabledAdmin(rewrite.changed)
    ensures |before| <= |events| && events[..|before|] == before
    ensures Interleave(LETTERS, START, events) == State(map[2 := rewrite.changed], map[])
    ensures EnabledAdmins(Interleave(LETTERS, START, events).users) == {}
  {
    var e1, e2 := Event(0, CommitDelete), Event(1, CommitWrite);
    Snoc(LETTERS, START, before, e1);
    Snoc(LETTERS, START, before + [e1], e2);
    events := before + [e1] + [e2];
    RemovalLands(rewrite);
    RewriteLands(rewrite);
  }

  lemma TraceToRace(rewrite: Client, before: seq<Event>) returns (events: seq<Event>)
    requires Interleave(LETTERS, START, before) == State(Both(Admin), map[1 := rewrite])
    ensures Interleave(LETTERS, START, events) == State(Both(Admin), map[0 := REMOVAL, 1 := rewrite])
    ensures |before| <= |events| && events[..|before|] == before
  {
    AdminsOfBoth();
    var s := State(Both(Admin), map[1 := rewrite]);
    var more := TraceToRemoval(s, 0);
    Append(LETTERS, START, before, more);
    assert Put(s, 0, REMOVAL) == State(Both(Admin), map[0 := REMOVAL, 1 := rewrite]);
    events := before + more;
  }

  lemma TraceToDisabling() returns (events: seq<Event>, counted: nat)
    ensures Interleave(LETTERS, START, events) == State(Both(Admin), map[1 := DISABLING])
    ensures counted <= |events| && CountAt(LETTERS, events, counted) == 2
  {
    AdminsOfBoth();
    var first := TraceToBoth(Admin);
    var s := State(Both(Admin), map[]);
    var second := TraceToRewrite(s, 1, 2, DISABLE, DISABLING.changed);
    Append(LETTERS, START, first, second);
    events, counted := first + second, |first|;
    assert events[..|first|] == first;
    assert Put(s, 1, DISABLING) == State(Both(Admin), map[1 := DISABLING]);
  }

  /** A delete of one admin races the disabling of the other: both count two, and none is left. */
  lemma DeleteRacesDisable() returns (events: seq<Event>)
    ensures var s := Interleave(LETTERS, START, events);
            s.clients == map[] && s.users != map[] && EnabledAdmins(s.users) == {}
    ensures WasCounted(LETTERS, events, 2)
  {
    var first, counted := TraceToDisabling();
    var second := TraceToRace(DISABLING, first);
    events := BothWrite(second, DISABLING);
    assert events[..counted] == second[..counted] == first[..counted];
    assert CountAt(LETTERS, events, counted) == 2;
    assert 2 in Interleave(LETTERS, START, events).users;
  }

  lemma TraceToLabelling() returns (events: seq<Event>)
    ensures Interleave(LETTERS, START, events) == State(Both(Member), map[1 := LABELLING])
  {
    var first := TraceToBoth(Member);
    var s := State(Both(Member), map[]);
    assert Trim("x") == "x";
    var second := TraceToRewrite(s, 1, 2, RELABEL, LABELLING.changed);
    Append(LETTERS, START, first, second);
    assert Put(s, 1, LABELLING) == State(Both(Member), map[1 := LABELLING]);
    events := first + second;
  }

  lemma PromotionCommits(s: State)
    requires s.users == Both(Member)
    requires s.clients == map[1 := LABELLING, 0 := Rewrite(2, Person("aa", Member), Person("aa", Admin), None)]
    ensures Next(LETTERS, s, Event(0, CommitWrite)) == State(Both(Admin), map[1 := LABELLING])
  {
    BothKeys(s.users, s.users[2]);
    assert s.users[2 := Person("aa", Admin)] == Both(Admin);
  }

  lemma TraceToPromotion(before: seq<Event>) returns (events: seq<Event>)
    requires Interleave(LETTERS, START, before) == State(Both(Member), map[1 := LABELLING])
    ensures Interleave(LETTERS, START, events) == State(Both(Admin), map[1 := LABELLING])
  {
    var s := State(Both(Member), map[1 := LABELLING]);
    var more := TraceToRewrite(s, 0, 2, PROMOTE, Person("aa", Admin));
    Append(LETTERS, START, before, more);
    Snoc(LETTERS, START, before + more, Event(0, CommitWrite));
    PromotionCommits(Put(s, 0, Rewrite(2, Person("aa", Member), Person("aa", Admin), None)));
    events := before + more + [Event(0, CommitWrite)];
  }

  /** A new label for a member, written back whole after the member was promoted and the other admin
      deleted: the last admin goes without the writer having counted at all. */
  lemma OldCopyDemotes() returns (events: seq<Event>)
    ensures var s := Interleave(LETTERS, START, events);
            s.clients == map[] && s.users != map[] && EnabledAdmins(s.users) == {}
  {
    var first := TraceToLabelling();
    var second := TraceToPromotion(first);
    var third := TraceToRace(LABELLING, second);
    events := BothWrite(third, LABELLING);
    assert 2 in Interleave(LETTERS, START, events).users;
  }
}
