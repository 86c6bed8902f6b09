/** The configuration and authentication calls as functions on the tables, the cache and the moments
    the service has looked at the outside world, and what every run of them keeps.
 */
module MachineCalls {
  import opened Common
  import opened Claims
  import opened Machines

  datatype ProviderChange = ProviderChange(
    name: Option<string>, issuer: Option<string>, audiences: Option<seq<string>>, mode: Option<Option<JwksMode>>,
    jwksUri: Option<string>, jwks: Option<string>, enabled: Option<bool>)

  datatype MachineText = MachineText(
    name: string, description: string, enabled: bool, provider: Option<Uuid>, subject: string,
    subjectPrefix: string, claims: seq<Condition>)

  datatype MachineChange = MachineChange(
    name: Option<string>, description: Option<string>, enabled: Option<bool>, provider: Option<Option<Uuid>>,
    clearProvider: bool, subject: Option<string>, subjectPrefix: Option<string>, claims: Option<seq<Condition>>)

  function Or<T>(change: Option<T>, current: T): T {
    match change
    case Some(v) => v
    case None => current
  }

  function Merged(p: Provider, change: ProviderChange): ProviderText {
    ProviderText(
      Or(change.name, p.name), Or(change.issuer, p.issuer), Or(change.audiences, p.audiences),
      Or(change.mode, Some(p.mode)), Or(change.jwksUri, p.jwksUri), Or(change.jwks, p.jwks))
  }

  /** ON DELETE SET NULL for the providers that go. */
  function Unbound(m: Machine, gone: set<Uuid>): Machine {
    if m.provider.Some? && m.provider.value in gone then m.(provider := None) else m
  }

  function MergedMachine(m: Machine, change: MachineChange): MachineText {
    MachineText(
      Or(change.name, m.name), Or(change.description, m.description), Or(change.enabled, m.enabled),
      if change.clearProvider then None else Or(change.provider, m.provider),
      Or(change.subject, m.subject), Or(change.subjectPrefix, m.subjectPrefix), Or(change.claims, m.claims))
  }

  /** What buildMachine makes of a text. */
  function Built(providers: map<Uuid, Provider>, pool: Uuid, t: MachineText): (r: Result<Machine, MachineError>)
    ensures r.Ok? ==> MachineFits(Config(map[pool := true], providers, map[]), AsStored(r.value))
    ensures r.Ok? ==> r.value.pool == pool && r.value.provider == t.provider
  {
    if Trim(t.name) == "" || NormalizeAll(t.claims).Err? then Err(InvalidMachine)
    else if t.provider.None? then Ok(Machine(pool, Trim(t.name), Trim(t.description), t.enabled, None, "", "", []))
    else if t.provider.value !in providers || providers[t.provider.value].pool != pool
            || (Trim(t.subject) == "" && Trim(t.subjectPrefix) == "" && NormalizeAll(t.claims).value == [])
    then Err(InvalidMachine)
    else
      ClaimsAreNonBlank(t.claims);
      Ok(Machine(pool, Trim(t.name), Trim(t.description), t.enabled, t.provider,
                 Trim(t.subject), Trim(t.subjectPrefix), NormalizeAll(t.claims).value))
  }

  /** The row the store keeps of a machine. */
  function AsStored(m: Machine): Machine {
    m.(claims := StoredAll(m.claims))
  }

  /** A machine matches the same tokens as the row the store keeps of it. */
  lemma StoredMachineMatchesAlike(m: Machine, claims: ClaimSet)
    ensures MachineMatches(AsStored(m), claims) == MachineMatches(m, claims)
  {
    StoredAllMatchAlike(m.claims, claims);
  }

  /** No other provider of the pool has the name or the issuer. */
  predicate ProviderUnique(providers: map<Uuid, Provider>, p: Provider, self: Option<Uuid>) {
    forall o :: o in providers && Some(o) != self && providers[o].pool == p.pool ==>
      providers[o].name != p.name && providers[o].issuer != p.issuer
  }

  predicate MachineNameFree(machines: map<Uuid, Machine>, m: Machine, self: Option<Uuid>) {
    forall o :: o in machines && Some(o) != self && machines[o].pool == m.pool ==> machines[o].name != m.name
  }

  // ---- the calls ---------------------------------------------------------------------

  datatype World = World(config: Config, cache: Cache, webs: seq<Web>)

  datatype Call =
    | CallCreatePool(pool: Uuid, enabled: Option<bool>)
    | CallUpdatePool(pool: Uuid, enabled: Option<bool>)
    | CallDeletePool(pool: Uuid)
    | CallCreateProvider(pool: Uuid, id: Uuid, provider: ProviderText, enabled: Option<bool>)
    | CallUpdateProvider(pool: Uuid, id: Uuid, providerChange: ProviderChange)
    | CallDeleteProvider(pool: Uuid, id: Uuid)
    | CallRefresh(pool: Uuid, id: Uuid, web: Web)
    | CallCreateMachine(pool: Uuid, id: Uuid, machine: MachineText)
    | CallUpdateMachine(pool: Uuid, id: Uuid, machineChange: MachineChange)
    | CallDeleteMachine(pool: Uuid, id: Uuid)
    | CallAuthenticate(token: Token, web: Web)

  ghost function SetPool(c: Config, id: Uuid, enabled: bool): Config {
    c.(pools := c.pools[id := enabled])
  }

  /** ON DELETE CASCADE removes the pool's providers and machines, ON DELETE SET NULL unbinds the
      machines of the providers that go. */
  ghost function WithoutPool(c: Config, id: Uuid): Config {
    var kept := map p | p in c.providers && c.providers[p].pool != id :: c.providers[p];
    Config(c.pools - {id}, kept,
           map m | m in c.machines && c.machines[m].pool != id :: Unbound(c.machines[m], c.providers.Keys - kept.Keys))
  }

  ghost function WithoutProvider(c: Config, id: Uuid): Config {
    Config(c.pools, c.providers - {id}, map m | m in c.machines :: Unbound(c.machines[m], {id}))
  }

  predicate HasProvider(c: Config, pool: Uuid, id: Uuid) {
    pool in c.pools && id in c.providers && c.providers[id].pool == pool
  }

  predicate HasMachine(c: Config, pool: Uuid, id: Uuid) {
    pool in c.pools && id in c.machines && c.machines[id].pool == pool
  }

  /** The row an accepted creation of a provider writes. */
  ghost function NewProvider(lib: Library, c: Config, pool: Uuid, t: ProviderText, enabled: Option<bool>): Option<Provider> {
    match NormalizeProvider(lib, pool, t, Or(enabled, true))
    case Err(_) => None
    case Ok(p) => if pool in c.pools && ProviderUnique(c.providers, p, None) then Some(p) else None
  }

  /** The row an accepted update of a provider writes. */
  ghost function NextProvider(lib: Library, c: Config, pool: Uuid, id: Uuid, change: ProviderChange): Option<Provider> {
    if !HasProvider(c, pool, id) then None
    else
      var row := c.providers[id];
      match NormalizeProvider(lib, pool, Merged(row, change), Or(change.enabled, row.enabled))
      case Err(_) => None
      case Ok(p) => if ProviderUnique(c.providers, p, Some(id)) then Some(p) else None
  }

  ghost function NewMachine(c: Config, pool: Uuid, t: MachineText): Option<Machine> {
    match Built(c.providers, pool, t)
    case Err(_) => None
    case Ok(m) => if pool in c.pools && MachineNameFree(c.machines, m, None) then Some(AsStored(m)) else None
  }

  ghost function NextMachine(c: Config, pool: Uuid, id: Uuid, change: MachineChange): Option<Machine> {
    if !HasMachine(c, pool, id) then None
    else match Built(c.providers, pool, MergedMachine(c.machines[id], change))
      case Err(_) => None
      case Ok(m) => if MachineNameFree(c.machines, m, Some(id)) then Some(AsStored(m)) else None
  }

  ghost function PutProvider(c: Config, id: Uuid, p: Option<Provider>): Config {
    if p.Some? then c.(providers := c.providers[id := p.value]) else c
  }

  ghost function PutMachine(c: Config, id: Uuid, m: Option<Machine>): Config {
    if m.Some? then c.(machines := c.machines[id := m.value]) else c
  }

  /** The cache after a refresh: fresh keys, or none. */
  ghost function Refreshed(lib: Library, cache: Cache, id: Uuid, p: Provider, web: Web): Cache {
    match KeysFrom(lib, p, web)
    case None => cache - {id}
    case Some(keys) => cache[id := Entry(keys, web.now)]
  }

  /** The effect of a call.  A create draws a uuid that is not in use: a call that names one in use
      is no call of the service and changes nothing. */
  ghost function Apply(lib: Library, w: World, call: Call): World {
    var c := w.config;
    match call
    case CallCreatePool(pool, enabled) =>
      if pool in c.pools then w else w.(config := SetPool(c, pool, Or(enabled, true)))
    case CallUpdatePool(pool, enabled) =>
      if pool !in c.pools then w else w.(config := SetPool(c, pool, Or(enabled, c.pools[pool])))
    case CallDeletePool(pool) => if pool !in c.pools then w else w.(config := WithoutPool(c, pool))
    case CallCreateProvider(pool, id, t, enabled) =>
      if id in c.providers || id in w.cache then w
      else w.(config := PutProvider(c, id, NewProvider(lib, c, pool, t, enabled)))
    case CallUpdateProvider(pool, id, change) =>
      var p := NextProvider(lib, c, pool, id, change);
      if p.None? then w else World(PutProvider(c, id, p), w.cache - {id}, w.webs)
    case CallDeleteProvider(pool, id) =>
      if !HasProvider(c, pool, id) then w else World(WithoutProvider(c, id), w.cache - {id}, w.webs)
    case CallRefresh(pool, id, web) =>
      if !HasProvider(c, pool, id) || c.providers[id].mode == Static then w
      else World(c, Refreshed(lib, w.cache, id, c.providers[id], web), w.webs + [web])
    case CallCreateMachine(pool, id, t) =>
      if id in c.machines then w else w.(config := PutMachine(c, id, NewMachine(c, pool, t)))
    case CallUpdateMachine(pool, id, change) => w.(config := PutMachine(c, id, NextMachine(c, pool, id, change)))
    case CallDeleteMachine(pool, id) =>
      if !HasMachine(c, pool, id) then w else w.(config := c.(machines := c.machines - {id}))
    case CallAuthenticate(token, web) => World(c, TriedCache(lib, c, w.cache, token, web), w.webs + [web])
  }

  const NOTHING: World := World(Config(map[], map[], map[]), map[], [])

  ghost function Run(lib: Library, calls: seq<Call>): World {
    if calls == [] then NOTHING else Apply(lib, Run(lib, calls[..|calls| - 1]), calls[|calls| - 1])
  }

  /** A consistent configuration and a coherent cache. */
  ghost predicate WorldValid(lib: Library, w: World) {
    ConfigValid(w.config) && Coherent(lib, w.config.providers, w.cache, w.webs)
  }

  // ---- each write keeps the configuration valid --------------------------------------

  lemma PoolsGrow(c: Config, d: Config)
    requires ConfigValid(c) && c.pools.Keys <= d.pools.Keys && d.providers == c.providers && d.machines == c.machines
    ensures ConfigValid(d)
  {
    Fewer(c, d);
  }

  /** d has rows of c only, machines perhaps unbound, and every pool and provider they need. */
  lemma Fewer(c: Config, d: Config)
    requires ConfigValid(c)
    requires forall p :: p in d.providers ==> p in c.providers && d.providers[p] == c.providers[p] && c.providers[p].pool in d.pools
    requires forall m :: m in d.machines ==>
               m in c.machines && (d.machines[m] == c.machines[m] || d.machines[m] == c.machines[m].(provider := None))
               && c.machines[m].pool in d.pools
               && (d.machines[m].provider.Some? ==> d.machines[m].provider.value in d.providers)
    ensures ConfigValid(d)
  {
    forall p | p in d.providers
      ensures ProviderFits(d, d.providers[p])
    {
      assert ProviderFits(c, c.providers[p]);
    }
    forall m | m in d.machines
      ensures MachineFits(d, d.machines[m])
    {
      assert MachineFits(c, c.machines[m]);
    }
    forall a, b
      ensures !ProviderClash(d, a, b) && !MachineClash(d, a, b)
    {
      assert !ProviderClash(c, a, b) && !MachineClash(c, a, b);
    }
  }

  lemma PoolGoes(c: Config, d: Config, id: Uuid)
    requires ConfigValid(c) && d.pools == c.pools - {id}
    requires d.providers == map p | p in c.providers && c.providers[p].pool != id :: c.providers[p]
    requires d.machines == map m | m in c.machines && c.machines[m].pool != id ::
                             Unbound(c.machines[m], c.providers.Keys - d.providers.Keys)
    ensures ConfigValid(d)
    ensures d.machines == map m | m in c.machines && c.machines[m].pool != id :: c.machines[m]
  {
    forall p | p in d.providers
      ensures c.providers[p].pool in d.pools
    {
      assert ProviderFits(c, c.providers[p]);
    }
    forall m | m in d.machines
      ensures c.machines[m].pool in d.pools && d.machines[m] == c.machines[m]
      ensures d.machines[m].provider.Some? ==> d.machines[m].provider.value in d.providers
    {
      assert MachineFits(c, c.machines[m]);
    }
    Fewer(c, d);
  }

  lemma ProviderGoes(c: Config, d: Config, id: Uuid)
    requires ConfigValid(c) && d.pools == c.pools && d.providers == c.providers - {id}
    requires d.machines == map m | m in c.machines :: Unbound(c.machines[m], {id})
    ensures ConfigValid(d)
  {
    forall p | p in d.providers
      ensures c.providers[p].pool in d.pools
    {
      assert ProviderFits(c, c.providers[p]);
    }
    forall m | m in d.machines
      ensures c.machines[m].pool in d.pools
      ensures d.machines[m].provider.Some? ==> d.machines[m].provider.value in d.providers
    {
      assert MachineFits(c, c.machines[m]);
    }
    Fewer(c, d);
  }

  lemma MachineGoes(c: Config, d: Config, id: Uuid)
    requires ConfigValid(c) && d == c.(machines := c.machines - {id})
    ensures ConfigValid(d)
  {
    forall p | p in d.providers
      ensures c.providers[p].pool in d.pools
    {
      assert ProviderFits(c, c.providers[p]);
    }
    forall m | m in d.machines
      ensures c.machines[m].pool in d.pools
      ensures d.machines[m].provider.Some? ==> d.machines[m].provider.value in d.providers
    {
      assert MachineFits(c, c.machines[m]);
    }
    Fewer(c, d);
  }

  /** A provider written under a free name and issuer, never moving to another pool. */
  lemma ProviderWritten(c: Config, d: Config, id: Uuid, p: Provider)
    requires ConfigValid(c) && d == c.(providers := c.providers[id := p]) && ProviderFits(d, p)
    requires id in c.providers ==> c.providers[id].pool == p.pool
    requires forall o :: o in c.providers && o != id && c.providers[o].pool == p.pool ==>
               c.providers[o].name != p.name && c.providers[o].issuer != p.issuer
    ensures ConfigValid(d)
  {
    forall o | o in d.providers
      ensures ProviderFits(d, d.providers[o])
    {
      assert o != id ==> ProviderFits(c, c.providers[o]);
    }
    forall m | m in d.machines
      ensures MachineFits(d, d.machines[m])
    {
      assert MachineFits(c, c.machines[m]);
    }
    forall a, b
      ensures !ProviderClash(d, a, b) && !MachineClash(d, a, b)
    {
      assert !ProviderClash(c, a, b) && !MachineClash(c, a, b);
    }
  }

  lemma MachineWritten(c: Config, d: Config, id: Uuid, m: Machine)
    requires ConfigValid(c) && d == c.(machines := c.machines[id := m]) && MachineFits(d, m)
    requires forall o :: o in c.machines && o != id && c.machines[o].pool == m.pool ==> c.machines[o].name != m.name
    ensures ConfigValid(d)
  {
    forall p | p in d.providers
      ensures ProviderFits(d, d.providers[p])
    {
      assert ProviderFits(c, c.providers[p]);
    }
    forall o | o in d.machines
      ensures MachineFits(d, d.machines[o])
    {
      assert o != id ==> MachineFits(c, c.machines[o]);
    }
    forall a, b
      ensures !ProviderClash(d, a, b) && !MachineClash(d, a, b)
    {
      assert !ProviderClash(c, a, b) && !MachineClash(c, a, b);
    }
  }

  // ---- each call keeps the world valid -----------------------------------------------

  /** Rows written under uuids without cached keys, or removed together with them or not, leave the
      cache coherent. */
  lemma CacheStaysCoherent(lib: Library, w: World, providers: map<Uuid, Provider>, cache: Cache)
    requires Coherent(lib, w.config.providers, w.cache, w.webs)
    requires forall id :: id in cache ==> id in w.cache && cache[id] == w.cache[id]
    requires forall id :: id in cache && id in providers ==>
               id in w.config.providers && providers[id] == w.config.providers[id]
    ensures Coherent(lib, providers, cache, w.webs)
  {
  }

  lemma PoolCallKeepsValid(lib: Library, w: World, call: Call)
    requires WorldValid(lib, w) && (call.CallCreatePool? || call.CallUpdatePool? || call.CallDeletePool?)
    ensures WorldValid(lib, Apply(lib, w, call))
  {
    var after := Apply(lib, w, call);
    if call.CallDeletePool? {
      if call.pool in w.config.pools {
        PoolGoes(w.config, after.config, call.pool);
        CacheStaysCoherent(lib, w, after.config.providers, after.cache);
      }
    } else {
      PoolsGrow(w.config, after.config);
    }
  }

  lemma NormalizedFits(lib: Library, c: Config, pool: Uuid, t: ProviderText, enabled: bool)
    requires pool in c.pools
    ensures NormalizeProvider(lib, pool, t, enabled).Ok? ==>
              NormalizeProvider(lib, pool, t, enabled).value.pool == pool
              && ProviderFits(c, NormalizeProvider(lib, pool, t, enabled).value)
  {
  }

  /** A fitting row written under a free name and issuer, with no keys left in the cache. */
  lemma ProviderWriteKeepsValid(lib: Library, w: World, id: Uuid, p: Provider)
    requires WorldValid(lib, w) && ProviderFits(w.config, p) && ProviderUnique(w.config.providers, p, Some(id))
    requires id in w.config.providers ==> w.config.providers[id].pool == p.pool
    ensures WorldValid(lib, World(PutProvider(w.config, id, Some(p)), w.cache - {id}, w.webs))
  {
    ProviderWritten(w.config, PutProvider(w.config, id, Some(p)), id, p);
    CacheStaysCoherent(lib, w, w.config.providers[id := p], w.cache - {id});
  }

  lemma CreateProviderKeepsValid(lib: Library, w: World, id: Uuid, pool: Uuid, t: ProviderText, enabled: Option<bool>)
    requires WorldValid(lib, w)
    ensures WorldValid(lib, Apply(lib, w, CallCreateProvider(pool, id, t, enabled)))
  {
    var p := NewProvider(lib, w.config, pool, t, enabled);
    if id !in w.config.providers && id !in w.cache && p.Some? {
      NormalizedFits(lib, w.config, pool, t, Or(enabled, true));
      ProviderWriteKeepsValid(lib, w, id, p.value);
      assert w.cache - {id} == w.cache;
    }
  }

  lemma UpdateProviderKeepsValid(lib: Library, w: World, id: Uuid, pool: Uuid, change: ProviderChange)
    requires WorldValid(lib, w)
    ensures WorldValid(lib, Apply(lib, w, CallUpdateProvider(pool, id, change)))
  {
    var p := NextProvider(lib, w.config, pool, id, change);
    if p.Some? {
      var row := w.config.providers[id];
      NormalizedFits(lib, w.config, pool, Merged(row, change), Or(change.enabled, row.enabled));
      ProviderWriteKeepsValid(lib, w, id, p.value);
    }
  }

  lemma DeleteProviderKeepsValid(lib: Library, w: World, id: Uuid, pool: Uuid)
    requires WorldValid(lib, w)
    ensures WorldValid(lib, Apply(lib, w, CallDeleteProvider(pool, id)))
  {
    if HasProvider(w.config, pool, id) {
      ProviderGoes(w.config, WithoutProvider(w.config, id), id);
      CacheStaysCoherent(lib, w, w.config.providers - {id}, w.cache - {id});
    }
  }

  lemma MachineCallKeepsValid(lib: Library, w: World, call: Call)
    requires WorldValid(lib, w)
    requires call.CallCreateMachine? || call.CallUpdateMachine? || call.CallDeleteMachine?
    ensures WorldValid(lib, Apply(lib, w, call))
  {
    var after := Apply(lib, w, call);
    if after != w {
      if call.CallDeleteMachine? {
        MachineGoes(w.config, after.config, call.id);
      } else {
        MachineWritten(w.config, after.config, call.id, after.config.machines[call.id]);
      }
    }
  }

  lemma LookingCallKeepsValid(lib: Library, w: World, call: Call)
    requires WorldValid(lib, w) && (call.CallRefresh? || call.CallAuthenticate?)
    ensures WorldValid(lib, Apply(lib, w, call))
  {
    CoherentLater(lib, w.config.providers, w.cache, w.webs, call.web);
    if call.CallAuthenticate? {
      TriedCacheIsCoherent(lib, w.config, w.cache, w.webs + [call.web], call.token, call.web);
    } else if HasProvider(w.config, call.pool, call.id) {
      var webs := w.webs + [call.web];
      LookupKeepsCoherence(lib, w.config.providers, w.cache - {call.id}, webs, call.id, true, call.web);
      assert Refreshed(lib, w.cache, call.id, w.config.providers[call.id], call.web)
          == Keys(lib, w.cache - {call.id}, call.id, w.config.providers[call.id], true, call.web).cache;
    }
  }

  lemma ApplyKeepsValid(lib: Library, w: World, call: Call)
    requires WorldValid(lib, w)
    ensures WorldValid(lib, Apply(lib, w, call))
  {
    if call.CallRefresh? || call.CallAuthenticate? {
      LookingCallKeepsValid(lib, w, call);
    } else if call.CallCreatePool? || call.CallUpdatePool? || call.CallDeletePool? {
      PoolCallKeepsValid(lib, w, call);
    } else if call.CallCreateProvider? {
      CreateProviderKeepsValid(lib, w, call.id, call.pool, call.provider, call.enabled);
    } else if call.CallUpdateProvider? {
      UpdateProviderKeepsValid(lib, w, call.id, call.pool, call.providerChange);
    } else if call.CallDeleteProvider? {
      DeleteProviderKeepsValid(lib, w, call.id, call.pool);
    } else {
      MachineCallKeepsValid(lib, w, call);
    }
  }

  /** After any run of calls every machine with a provider has one of its own pool and something it
      must match, and every cached key set of a live provider was obtained under its current
      configuration. */
  lemma {:induction false} RunIsValid(lib: Library, calls: seq<Call>)
    ensures WorldValid(lib, Run(lib, calls))
  {
    if calls != [] {
      RunIsValid(lib, calls[..|calls| - 1]);
      ApplyKeepsValid(lib, Run(lib, calls[..|calls| - 1]), calls[|calls| - 1]);
    }
  }

  /** In every reachable state the cached keys of a static provider are the parse of its current
      document. */
  lemma ReachableStaticKeys(lib: Library, calls: seq<Call>, id: Uuid)
    requires var w := Run(lib, calls);
             id in w.cache && id in w.config.providers && w.config.providers[id].mode == Static
    ensures var w := Run(lib, calls);
            ParseJwks(lib, w.config.providers[id].jwks) == Some(w.cache[id].keys)
  {
    var w := Run(lib, calls);
    RunIsValid(lib, calls);
    StaticEntryIsTheDocument(lib, w.config.providers, w.cache, w.webs, id);
  }

  /** In every reachable state no machine is matched by a token without claims. */
  lemma ReachableMachinesAreConstrained(lib: Library, calls: seq<Call>, m: Uuid)
    requires m in Run(lib, calls).config.machines
    ensures !MachineMatches(Run(lib, calls).config.machines[m], map[])
  {
    RunIsValid(lib, calls);
    NobodyMatchesNothing(Run(lib, calls).config, m);
  }

  /** Deleting a pool unbinds no machine that stays. */
  lemma DeletePoolUnbindsNobody(lib: Library, calls: seq<Call>, pool: Uuid)
    ensures var c := Run(lib, calls).config;
            pool in c.pools ==>
              Apply(lib, Run(lib, calls), CallDeletePool(pool)).config.machines
              == map m | m in c.machines && c.machines[m].pool != pool :: c.machines[m]
  {
    RunIsValid(lib, calls);
    var c := Run(lib, calls).config;
    if pool in c.pools {
      PoolGoes(c, WithoutPool(c, pool), pool);
    }
  }
}
