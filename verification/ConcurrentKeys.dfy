/** The key-set cache under many clients.  A lookup reads the provider row, looks in the cache,
    fetches outside the mutex and stores under it; an update writes the row and then drops the
    cached keys.  Each of these is a step of its own.  A cache entry also carries the moment its
    keys were fetched at, which no step reads: it lets invariants say what the keys are.
 */
module ConcurrentKeys {
  import opened Common
  import opened Machines
  import opened MachineCalls

  datatype Fetched = Fetched(keys: KeySet, from: Web, storedAt: int)

  /** Where a client is in the middle of a call. */
  datatype Client =
    | Looking(id: Uuid, row: Provider)                                    // has read the row
    | Fetching(id: Uuid, row: Provider, force: bool)                      // has missed, or must not look
    | Storing(id: Uuid, row: Provider, force: bool, web: Web, keys: KeySet)  // has fetched
    | Holding(id: Uuid, row: Provider)                                    // has keys, perhaps not the one it needs
    | Updating(id: Uuid, row: Provider)                                   // has the row to write
    | Removing(id: Uuid)
    | Invalidating(id: Uuid, refresh: Option<Provider>)                   // about to drop the cached keys

  datatype State = State(
    pools: set<Uuid>, providers: map<Uuid, Provider>, cache: map<Uuid, Fetched>, used: set<Uuid>,
    clients: map<nat, Client>)

  datatype Action =
    | MakePool(pool: Uuid)
    | DropPool(pool: Uuid)
    | Create(id: Uuid, pool: Uuid, text: ProviderText, enabled: bool)
    | ReadRow(id: Uuid)
    | LookUp(now: int)
    | Fetch(web: Web)
    | Store(now: int)
    | Refetch
    | StartUpdate(id: Uuid, pool: Uuid, change: ProviderChange)
    | WriteRow
    | StartDelete(id: Uuid, pool: Uuid)
    | DeleteRow
    | StartRefresh(id: Uuid, pool: Uuid)
    | Invalidate
    | GiveUp

  datatype Event = Event(client: nat, action: Action)

  const START: State := State({}, map[], map[], {}, map[])

  ghost function Put(s: State, c: nat, client: Client): State {
    s.(clients := s.clients[c := client])
  }

  ghost function Drop(s: State, c: nat): State {
    s.(clients := s.clients - {c})
  }

  // ---- steps -------------------------------------------------------------------------

  /** uuid.New never repeats a uuid. */
  ghost function CreateRow(lib: Library, s: State, id: Uuid, pool: Uuid, t: ProviderText, enabled: bool): State {
    if id in s.used || pool !in s.pools then s
    else match NormalizeProvider(lib, pool, t, enabled)
      case Err(_) => s
      case Ok(p) => s.(providers := s.providers[id := p], used := s.used + {id})
  }

  predicate Live(s: State, id: Uuid, pool: Uuid) {
    pool in s.pools && id in s.providers && s.providers[id].pool == pool
  }

  /** GetProvider, and the row an update is going to write. */
  ghost function BeginUpdate(lib: Library, s: State, c: nat, id: Uuid, pool: Uuid, change: ProviderChange): State {
    if !Live(s, id, pool) then s
    else
      var row := s.providers[id];
      match NormalizeProvider(lib, pool, Merged(row, change), Or(change.enabled, row.enabled))
      case Err(_) => s
      case Ok(p) => Put(s, c, Updating(id, p))
  }

  ghost function Begin(lib: Library, s: State, c: nat, a: Action): State {
    match a
    case MakePool(pool) => s.(pools := s.pools + {pool})
    case DropPool(pool) =>
      s.(pools := s.pools - {pool},
         providers := map p | p in s.providers && s.providers[p].pool != pool :: s.providers[p])
    case Create(id, pool, t, enabled) => CreateRow(lib, s, id, pool, t, enabled)
    case ReadRow(id) => if id in s.providers then Put(s, c, Looking(id, s.providers[id])) else s
    case StartUpdate(id, pool, change) => BeginUpdate(lib, s, c, id, pool, change)
    case StartDelete(id, pool) => if Live(s, id, pool) then Put(s, c, Removing(id)) else s
    case StartRefresh(id, pool) =>
      if Live(s, id, pool) && s.providers[id].mode != Static
      then Put(s, c, Invalidating(id, Some(s.providers[id]))) else s
    case _ => s
  }

  /** The look into the cache, under the mutex. */
  ghost function AfterLook(s: State, c: nat, l: Client, now: int): State
    requires l.Looking?
  {
    if l.id in s.cache && now - s.cache[l.id].storedAt < TTL then Put(s, c, Holding(l.id, l.row))
    else Put(s, c, Fetching(l.id, l.row, false))
  }

  /** The fetch or parse, outside the mutex, from the row read earlier. */
  ghost function AfterFetch(lib: Library, s: State, c: nat, f: Client, web: Web): State
    requires f.Fetching?
  {
    match KeysFrom(lib, f.row, web)
    case None => Drop(s, c)
    case Some(keys) => Put(s, c, Storing(f.id, f.row, f.force, web, keys))
  }

  /** The write to the cache, under the mutex. */
  ghost function AfterStore(s: State, c: nat, t: Client, now: int): State
    requires t.Storing?
  {
    var stored := s.(cache := s.cache[t.id := Fetched(t.keys, t.web, now)]);
    if t.force then Drop(stored, c) else Put(stored, c, Holding(t.id, t.row))
  }

  /** The row write of an update; the row may have gone. */
  ghost function AfterWrite(s: State, c: nat, u: Client): State
    requires u.Updating?
  {
    if u.id in s.providers && s.providers[u.id].pool == u.row.pool
    then Put(s.(providers := s.providers[u.id := u.row]), c, Invalidating(u.id, None))
    else Drop(s, c)
  }

  ghost function AfterDelete(s: State, c: nat, id: Uuid): State {
    if id in s.providers then Put(s.(providers := s.providers - {id}), c, Invalidating(id, None)) else Drop(s, c)
  }

  ghost function AfterInvalidate(s: State, c: nat, i: Client): State
    requires i.Invalidating?
  {
    var cleared := s.(cache := s.cache - {i.id});
    match i.refresh
    case None => Drop(cleared, c)
    case Some(row) => Put(cleared, c, Fetching(i.id, row, true))
  }

  /** Nothing stands between a row write and the invalidation that follows it. */
  ghost function Continue(lib: Library, s: State, c: nat, client: Client, a: Action): State {
    match client
    case Looking(_, _) => if a.LookUp? then AfterLook(s, c, client, a.now) else if a.GiveUp? then Drop(s, c) else s
    case Fetching(_, _, _) =>
      if a.Fetch? then AfterFetch(lib, s, c, client, a.web) else if a.GiveUp? then Drop(s, c) else s
    case Storing(_, _, _, _, _) => if a.Store? then AfterStore(s, c, client, a.now) else s
    case Holding(id, row) =>
      if a.Refetch? then Put(s, c, Fetching(id, row, true)) else if a.GiveUp? then Drop(s, c) else s
    case Updating(_, _) => if a.WriteRow? then AfterWrite(s, c, client) else if a.GiveUp? then Drop(s, c) else s
    case Removing(id) => if a.DeleteRow? then AfterDelete(s, c, id) else if a.GiveUp? then Drop(s, c) else s
    case Invalidating(_, _) => if a.Invalidate? then AfterInvalidate(s, c, client) else s
  }

  ghost function Next(lib: Library, s: State, e: Event): State {
    if e.client in s.clients then Continue(lib, s, e.client, s.clients[e.client], e.action)
    else Begin(lib, s, e.client, e.action)
  }

  ghost function Interleave(lib: Library, s: State, events: seq<Event>): State
    decreases |events|
  {
    if events == [] then s else Next(lib, Interleave(lib, s, events[..|events| - 1]), events[|events| - 1])
  }

  // ---- what the cache should hold ----------------------------------------------------

  /** The keys are what the row yielded at the moment they were fetched. */
  ghost predicate IsCurrent(lib: Library, row: Provider, f: Fetched) {
    KeysFrom(lib, row, f.from) == Some(f.keys)
  }

  /** Every cached key set of a live provider is what its current row yields. */
  ghost predicate Coherent(lib: Library, s: State) {
    forall id :: id in s.cache && id in s.providers ==> IsCurrent(lib, s.providers[id], s.cache[id])
  }

  predicate Drops(client: Client, id: Uuid) {
    client.Invalidating? && client.id == id
  }

  /** A client is about to drop the cached keys of the provider. */
  ghost predicate Pending(s: State, id: Uuid) {
    exists c :: c in s.clients && Drops(s.clients[c], id)
  }

  /** The same, except where an invalidation is still to come. */
  ghost predicate Settled(lib: Library, s: State) {
    forall id :: id in s.cache && id in s.providers && !Pending(s, id) ==> IsCurrent(lib, s.providers[id], s.cache[id])
  }

  ghost predicate ClientFits(lib: Library, used: set<Uuid>, client: Client) {
    client.id in used && (client.Storing? ==> KeysFrom(lib, client.row, client.web) == Some(client.keys))
  }

  ghost predicate Safe(lib: Library, s: State) {
    s.providers.Keys <= s.used && s.cache.Keys <= s.used
    && forall c :: c in s.clients ==> ClientFits(lib, s.used, s.clients[c])
  }

  /** The step stores keys for a live provider whose current row yields others than the row the
      client read earlier. */
  ghost predicate StoresOther(lib: Library, s: State, e: Event) {
    e.client in s.clients && s.clients[e.client].Storing? && e.action.Store? &&
    var t := s.clients[e.client];
    t.id in s.providers && KeysFrom(lib, s.providers[t.id], t.web) != KeysFrom(lib, t.row, t.web)
  }

  /** The step writes a row under which the cached keys are no longer right. */
  ghost predicate WritesOver(lib: Library, s: State, e: Event) {
    e.client in s.clients && s.clients[e.client].Updating? && e.action.WriteRow? &&
    var u := s.clients[e.client];
    u.id in s.providers && s.providers[u.id].pool == u.row.pool && u.id in s.cache
    && !IsCurrent(lib, u.row, s.cache[u.id])
  }

  lemma StepIsSafe(lib: Library, s: State, e: Event)
    requires Safe(lib, s)
    ensures Safe(lib, Next(lib, s, e))
  {
    if e.client in s.clients {
      assert ClientFits(lib, s.used, s.clients[e.client]);
    }
  }

  /** No interleaving makes a client store anything but what the row it read yielded. */
  lemma {:induction false} InterleavingsAreSafe(lib: Library, events: seq<Event>)
    ensures Safe(lib, Interleave(lib, START, events))
    decreases |events|
  {
    if events != [] {
      InterleavingsAreSafe(lib, events[..|events| - 1]);
      StepIsSafe(lib, Interleave(lib, START, events[..|events| - 1]), events[|events| - 1]);
    }
  }

  /** From a coherent state, the next is incoherent if and only if the step stores keys that the
      current row does not yield, or writes a row that the cached keys do not suit. */
  lemma CoherenceBreaksIff(lib: Library, s: State, e: Event)
    requires Safe(lib, s) && Coherent(lib, s)
    ensures !Coherent(lib, Next(lib, s, e)) <==> StoresOther(lib, s, e) || WritesOver(lib, s, e)
  {
    var t := Next(lib, s, e);
    if StoresOther(lib, s, e) {
      var id := s.clients[e.client].id;
      assert ClientFits(lib, s.used, s.clients[e.client]);
      assert id in t.cache && !IsCurrent(lib, t.providers[id], t.cache[id]);
    } else if WritesOver(lib, s, e) {
      var id := s.clients[e.client].id;
      assert id in t.cache && !IsCurrent(lib, t.providers[id], t.cache[id]);
    } else {
      if e.client in s.clients {
        assert ClientFits(lib, s.used, s.clients[e.client]);
      }
      forall id | id in t.cache && id in t.providers
        ensures IsCurrent(lib, t.providers[id], t.cache[id])
      {
      }
    }
  }

  /** A pending invalidation stays pending until it has dropped the keys. */
  lemma StaysPending(lib: Library, s: State, e: Event, id: Uuid)
    requires Pending(s, id) && id in Next(lib, s, e).cache
    requires !(e.client in s.clients && s.clients[e.client].Storing?)
    ensures Pending(Next(lib, s, e), id)
  {
    var c :| c in s.clients && Drops(s.clients[c], id);
    assert c in Next(lib, s, e).clients && Drops(Next(lib, s, e).clients[c], id);
  }

  lemma StoreKeepsPending(lib: Library, s: State, e: Event, id: Uuid)
    requires e.client in s.clients && s.clients[e.client].Storing?
    ensures Pending(Next(lib, s, e), id) <==> Pending(s, id)
  {
    var t := Next(lib, s, e);
    if Pending(s, id) {
      var c :| c in s.clients && Drops(s.clients[c], id);
      assert c != e.client && c in t.clients && Drops(t.clients[c], id);
    }
    if Pending(t, id) {
      var c :| c in t.clients && Drops(t.clients[c], id);
      assert c in s.clients && Drops(s.clients[c], id);
    }
  }

  lemma OtherStepsSettle(lib: Library, s: State, e: Event)
    requires Safe(lib, s) && Settled(lib, s) && !(e.client in s.clients && s.clients[e.client].Storing?)
    ensures Settled(lib, Next(lib, s, e))
  {
    var t := Next(lib, s, e);
    forall id | id in t.cache && id in t.providers && !Pending(t, id)
      ensures IsCurrent(lib, t.providers[id], t.cache[id])
    {
      if Pending(s, id) {
        StaysPending(lib, s, e, id);
      }
      if e.client in s.clients && s.clients[e.client].Updating? && t.clients != s.clients && e.client in t.clients {
        assert Drops(t.clients[e.client], s.clients[e.client].id);
      }
    }
  }

  /** Counting an update as done when its invalidation is: from a settled state the next is
      unsettled if and only if the step stores keys that the current row does not yield and no
      invalidation of that provider is still to come. */
  lemma SettledBreaksIff(lib: Library, s: State, e: Event)
    requires Safe(lib, s) && Settled(lib, s)
    ensures !Settled(lib, Next(lib, s, e)) <==> StoresOther(lib, s, e) && !Pending(s, s.clients[e.client].id)
  {
    if e.client in s.clients && s.clients[e.client].Storing? {
      var t := Next(lib, s, e);
      var client := s.clients[e.client];
      assert ClientFits(lib, s.used, client);
      forall id
        ensures Pending(t, id) <==> Pending(s, id)
      {
        StoreKeepsPending(lib, s, e, id);
      }
      if e.action.Store? && client.id in s.providers {
        assert IsCurrent(lib, t.providers[client.id], t.cache[client.id]) <==> !StoresOther(lib, s, e);
      }
      forall id | id in t.cache && id in t.providers && id != client.id
        ensures id in s.cache && t.cache[id] == s.cache[id] && t.providers[id] == s.providers[id]
      {
      }
    } else {
      OtherStepsSettle(lib, s, e);
    }
  }

  /** Some step of the run stores keys that its provider's row no longer yields, with no
      invalidation of them to come. */
  ghost predicate StoresStale(lib: Library, events: seq<Event>) {
    exists k :: 0 <= k < |events| && StaleStep(lib, events, k)
  }

  ghost predicate StaleStep(lib: Library, events: seq<Event>, k: nat)
    requires k < |events|
  {
    var s := Interleave(lib, START, events[..k]);
    StoresOther(lib, s, events[k]) && !Pending(s, s.clients[events[k].client].id)
  }

  /** An interleaving without such a step, and with no invalidation still to come, leaves every
      cached key set of a live provider as its current row yields it. */
  lemma {:induction false} RunsSettle(lib: Library, events: seq<Event>)
    requires !StoresStale(lib, events)
    ensures Settled(lib, Interleave(lib, START, events))
    ensures var s := Interleave(lib, START, events);
            (forall id :: !Pending(s, id)) ==> Coherent(lib, s)
    decreases |events|
  {
    if events != [] {
      var n := |events| - 1;
      var init := events[..n];
      assert !StaleStep(lib, events, n);
      forall k | 0 <= k < |init|
        ensures !StaleStep(lib, init, k)
      {
        assert init[..k] == events[..k] && !StaleStep(lib, events, k);
      }
      RunsSettle(lib, init);
      InterleavingsAreSafe(lib, init);
      SettledBreaksIff(lib, Interleave(lib, START, init), events[n]);
    }
  }

  // ---- a lookup left alone -----------------------------------------------------------

  /** What the service stores of an entry. */
  ghost function Plain(cache: map<Uuid, Fetched>): Cache {
    map id | id in cache :: Entry(cache[id].keys, cache[id].storedAt)
  }

  /** A lookup that nobody interrupts, at one moment, is the lookup in one step: cache and keys. */
  lemma LookupAlone(lib: Library, s: State, c: nat, id: Uuid, web: Web)
    requires c !in s.clients && id in s.providers
    ensures var s1 := Next(lib, s, Event(c, ReadRow(id)));
            var s2 := Next(lib, s1, Event(c, LookUp(web.now)));
            var whole := Keys(lib, Plain(s.cache), id, s.providers[id], false, web);
            if s2.clients[c].Holding? then whole == Lookup(Plain(s2.cache), Some(s2.cache[id].keys))
            else
              var s3 := Next(lib, s2, Event(c, Fetch(web)));
              if c !in s3.clients then whole == Lookup(Plain(s3.cache), None)
              else
                var s4 := Next(lib, s3, Event(c, Store(web.now)));
                whole == Lookup(Plain(s4.cache), Some(s3.clients[c].keys))
  {
    var row := s.providers[id];
    if !(id in s.cache && web.now - s.cache[id].storedAt < TTL) && KeysFrom(lib, row, web).Some? {
      var entry := Fetched(KeysFrom(lib, row, web).value, web, web.now);
      assert Plain(s.cache[id := entry]) == Plain(s.cache)[id := Entry(entry.keys, web.now)];
    }
  }

  lemma PlainPut(cache: map<Uuid, Fetched>, id: Uuid, f: Fetched)
    ensures Plain(cache[id := f]) == Plain(cache)[id := Entry(f.keys, f.storedAt)]
    ensures Plain(cache - {id}) == Plain(cache) - {id}
  {
  }

  /** A forced fetch and store, uninterrupted, is the forced lookup in one step; then the client is done. */
  lemma ForcedLookupAlone(lib: Library, s: State, c: nat, id: Uuid, row: Provider, web: Web)
    requires c in s.clients && s.clients[c] == Fetching(id, row, true)
    ensures var whole := Keys(lib, Plain(s.cache), id, row, true, web);
            var t := Next(lib, s, Event(c, Fetch(web)));
            if c !in t.clients then whole == Lookup(Plain(t.cache), None)
            else
              var u := Next(lib, t, Event(c, Store(web.now)));
              whole == Lookup(Plain(u.cache), Some(t.clients[c].keys)) && u.clients == s.clients - {c}
  {
    if KeysFrom(lib, row, web).Some? {
      PlainPut(s.cache, id, Fetched(KeysFrom(lib, row, web).value, web, web.now));
    }
  }

  /** A refresh that nobody interrupts is the refresh in one step. */
  lemma RefreshAlone(lib: Library, s: State, c: nat, id: Uuid, pool: Uuid, web: Web)
    requires c !in s.clients && Live(s, id, pool) && s.providers[id].mode != Static
    ensures var t := Next(lib, Next(lib, s, Event(c, StartRefresh(id, pool))), Event(c, Invalidate));
            var u := Next(lib, Next(lib, t, Event(c, Fetch(web))), Event(c, Store(web.now)));
            Plain(u.cache) == Refreshed(lib, Plain(s.cache), id, s.providers[id], web) && u.clients == s.clients
  {
    var row := s.providers[id];
    var t := Next(lib, Next(lib, s, Event(c, StartRefresh(id, pool))), Event(c, Invalidate));
    RefreshInvalidates(lib, s, c, id, pool);
    ForcedLookupAlone(lib, t, c, id, row, web);
    assert t.clients - {c} == s.clients;
    if KeysFrom(lib, row, web).Some? {
      var keys := KeysFrom(lib, row, web).value;
      assert (Plain(s.cache) - {id})[id := Entry(keys, web.now)] == Plain(s.cache)[id := Entry(keys, web.now)];
    }
  }

  lemma RefreshInvalidates(lib: Library, s: State, c: nat, id: Uuid, pool: Uuid)
    requires c !in s.clients && Live(s, id, pool) && s.providers[id].mode != Static
    ensures var t := Next(lib, Next(lib, s, Event(c, StartRefresh(id, pool))), Event(c, Invalidate));
            t.clients == s.clients[c := Fetching(id, s.providers[id], true)] && Plain(t.cache) == Plain(s.cache) - {id}
  {
    if id in s.cache {
      PlainPut(s.cache, id, s.cache[id]);
    } else {
      assert Plain(s.cache - {id}) == Plain(s.cache) - {id};
    }
  }

  /** An update that nobody interrupts writes the normalised row and leaves no cached keys of the
      provider; a delete removes row and keys; and a create adds its row. */
  lemma UpdateAlone(lib: Library, s: State, c: nat, id: Uuid, pool: Uuid, change: ProviderChange, p: Provider)
    requires c !in s.clients && Live(s, id, pool)
    requires var row := s.providers[id];
             NormalizeProvider(lib, pool, Merged(row, change), Or(change.enabled, row.enabled)) == Ok(p)
    ensures Next(lib, Next(lib, Next(lib, s, Event(c, StartUpdate(id, pool, change))), Event(c, WriteRow)), Event(c, Invalidate))
         == s.(providers := s.providers[id := p], cache := s.cache - {id})
  {
    var s1 := Put(s, c, Updating(id, p));
    assert Next(lib, s, Event(c, StartUpdate(id, pool, change))) == s1;
    var s2 := Put(s.(providers := s.providers[id := p]), c, Invalidating(id, None));
    assert p.pool == pool;
    assert Next(lib, s1, Event(c, WriteRow)) == AfterWrite(s1, c, Updating(id, p)) == s2;
    assert s2.clients - {c} == s.clients;
  }

  lemma DeleteAlone(lib: Library, s: State, c: nat, id: Uuid, pool: Uuid)
    requires c !in s.clients && Live(s, id, pool)
    ensures Next(lib, Next(lib, Next(lib, s, Event(c, StartDelete(id, pool))), Event(c, DeleteRow)), Event(c, Invalidate))
         == s.(providers := s.providers - {id}, cache := s.cache - {id})
  {
    var s1 := Put(s, c, Removing(id));
    assert Next(lib, s, Event(c, StartDelete(id, pool))) == s1;
    var s2 := Put(s.(providers := s.providers - {id}), c, Invalidating(id, None));
    assert Next(lib, s1, Event(c, DeleteRow)) == AfterDelete(s1, c, id) == s2;
    assert s2.clients - {c} == s.clients;
  }

  lemma CreateAlone(lib: Library, s: State, c: nat, id: Uuid, pool: Uuid, t: ProviderText, enabled: bool, p: Provider)
    requires c !in s.clients && id !in s.used && pool in s.pools && NormalizeProvider(lib, pool, t, enabled) == Ok(p)
    ensures Next(lib, s, Event(c, Create(id, pool, t, enabled)))
         == s.(providers := s.providers[id := p], used := s.used + {id})
  {
  }

  // ---- old keys after an update ------------------------------------------------------

  /** Two documents of one key each. */
  function OneKey(document: string): Option<KeySet> {
    if document == "old" then Some([Key("k", 1)]) else if document == "new" then Some([Key("k", 2)]) else None
  }

  const LIB: Library := Library(OneKey, u => Some(u), v => None)

  function StaticText(document: string): ProviderText {
    ProviderText("p", "https://i", ["a"], Some(Static), "", document)
  }

  function StaticRow(document: string): Provider {
    Provider(1, "p", "https://i", ["a"], Static, "", document, true)
  }

  const NEW_DOCUMENT: ProviderChange := ProviderChange(None, None, None, None, None, Some("new"), None)

  lemma StaticRowsAreNormal(document: string)
    requires document == "old" || document == "new"
    ensures NormalizeProvider(LIB, 1, StaticText(document), true) == Ok(StaticRow(document))
    ensures forall web :: KeysFrom(LIB, StaticRow(document), web) == OneKey(document)
  {
    assert CleanAudiences(["a"], {}) == ["a"];
  }

  lemma Snoc(lib: Library, s: State, events: seq<Event>, e: Event)
    ensures Interleave(lib, s, events + [e]) == Next(lib, Interleave(lib, s, events), e)
  {
    assert (events + [e])[..|events|] == events;
  }

  const WEB: Web := Web(0, u => None, u => None)

  const OLD_KEYS: KeySet := [Key("k", 1)]

  ghost function WithProvider(document: string, cache: map<Uuid, Fetched>, clients: map<nat, Client>): State {
    State({1}, map[7 := StaticRow(document)], cache, {7}, clients)
  }

  /** Client 0 makes a pool and a static provider in it. */
  lemma TraceToProvider() returns (events: seq<Event>)
    ensures Interleave(LIB, START, events) == WithProvider("old", map[], map[])
  {
    StaticRowsAreNormal("old");
    var e1, e2 := Event(0, MakePool(1)), Event(0, Create(7, 1, StaticText("old"), true));
    Snoc(LIB, START, [], e1);
    Snoc(LIB, START, [] + [e1], e2);
    events := [] + [e1] + [e2];
  }

  /** Client 1 reads the row, misses the cache and parses the document. */
  lemma TraceToStoring(before: seq<Event>) returns (events: seq<Event>)
    requires Interleave(LIB, START, before) == WithProvider("old", map[], map[])
    ensures Interleave(LIB, START, events)
         == WithProvider("old", map[], map[1 := Storing(7, StaticRow("old"), false, WEB, OLD_KEYS)])
  {
    var e3, e4, e5 := Event(1, ReadRow(7)), Event(1, LookUp(0)), Event(1, Fetch(WEB));
    Snoc(LIB, START, before, e3);
    Snoc(LIB, START, before + [e3], e4);
    Snoc(LIB, START, before + [e3] + [e4], e5);
    var s3 := WithProvider("old", map[], map[1 := Looking(7, StaticRow("old"))]);
    var s4 := WithProvider("old", map[], map[1 := Fetching(7, StaticRow("old"), false)]);
    assert Next(LIB, WithProvider("old", map[], map[]), e3) == s3;
    assert Next(LIB, s3, e4) == s4;
    events := before + [e3] + [e4] + [e5];
  }

  lemma UpdateBegins(storing: Client)
    ensures Next(LIB, WithProvider("old", map[], map[1 := storing]), Event(0, StartUpdate(7, 1, NEW_DOCUMENT)))
         == WithProvider("old", map[], map[1 := storing, 0 := Updating(7, StaticRow("new"))])
  {
    StaticRowsAreNormal("new");
    assert Merged(StaticRow("old"), NEW_DOCUMENT) == StaticText("new");
  }

  lemma UpdateEnds(storing: Client)
    ensures Next(LIB, WithProvider("old", map[], map[1 := storing, 0 := Updating(7, StaticRow("new"))]), Event(0, WriteRow))
         == WithProvider("new", map[], map[1 := storing, 0 := Invalidating(7, None)])
    ensures Next(LIB, WithProvider("new", map[], map[1 := storing, 0 := Invalidating(7, None)]), Event(0, Invalidate))
         == WithProvider("new", map[], map[1 := storing])
  {
  }

  /** Meanwhile client 0 replaces the document and drops the cached keys. */
  lemma TraceToUpdate(before: seq<Event>, storing: Client) returns (events: seq<Event>)
    requires Interleave(LIB, START, before) == WithProvider("old", map[], map[1 := storing])
    ensures Interleave(LIB, START, events) == WithProvider("new", map[], map[1 := storing])
  {
    var e6, e7, e8 := Event(0, StartUpdate(7, 1, NEW_DOCUMENT)), Event(0, WriteRow), Event(0, Invalidate);
    Snoc(LIB, START, before, e6);
    Snoc(LIB, START, before + [e6], e7);
    Snoc(LIB, START, before + [e6] + [e7], e8);
    UpdateBegins(storing);
    UpdateEnds(storing);
    events := before + [e6] + [e7] + [e8];
  }

  /** Two clients can bring the keys of a replaced static document back: with nobody left in the middle
      of a call the cache is incoherent, and lookups use the old keys for the hour. */
  lemma OldKeysComeBack() returns (events: seq<Event>)
    ensures var s := Interleave(LIB, START, events);
            s.clients == map[] && !Coherent(LIB, s) && s.providers == map[7 := StaticRow("new")]
            && forall web: Web :: web.now < TTL ==>
                 Keys(LIB, Plain(s.cache), 7, s.providers[7], false, web).keys == OneKey("old") != OneKey("new")
  {
    var provided := TraceToProvider();
    var storing := TraceToStoring(provided);
    var client := Storing(7, StaticRow("old"), false, WEB, OLD_KEYS);
    var updated := TraceToUpdate(storing, client);
    var e9, e10 := Event(1, Store(0)), Event(1, GiveUp);
    Snoc(LIB, START, updated, e9);
    Snoc(LIB, START, updated + [e9], e10);
    var fetched := Fetched(OLD_KEYS, WEB, 0);
    var s8 := WithProvider("new", map[], map[1 := client]);
    var s9 := WithProvider("new", map[7 := fetched], map[1 := Holding(7, StaticRow("old"))]);
    var s10 := WithProvider("new", map[7 := fetched], map[]);
    assert Next(LIB, s8, e9) == s9;
    assert Next(LIB, s9, e10) == s10;
    events := updated + [e9] + [e10];
    StaticRowsAreNormal("new");
    assert !IsCurrent(LIB, s10.providers[7], s10.cache[7]);
  }
}
