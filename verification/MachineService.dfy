/** The machine identity service as an object: its tables, its key-set cache, and the calls that
    read and write them.  The methods keep Valid(): a consistent configuration and a cache that
    holds, for live providers, only what their current configuration yielded.
 */
module MachineService {
  import opened Common
  import opened Claims
  import opened Machines
  import opened MachineCalls
  import TokenLaws

  datatype Principal = Principal(machine: Uuid, pool: Uuid, name: string, issuer: string, subject: string)

  predicate Distinct(s: seq<Uuid>) {
    forall i, j :: 0 <= i < j < |s| ==> s[i] != s[j]
  }

  function Members(s: seq<Uuid>): set<Uuid> {
    set id | id in s
  }

  /** The rows of a query result, in some order. */
  method ListIds(ids: set<Uuid>) returns (list: seq<Uuid>)
    ensures Distinct(list) && forall id :: id in list <==> id in ids
  {
    list := [];
    var rest := ids;
    while rest != {}
      invariant rest <= ids && Distinct(list) && forall id :: id in list <==> id in ids - rest
      decreases rest
    {
      var id :| id in rest;
      Joined(list, [id]);
      list := list + [id];
      rest := rest - {id};
    }
  }

  method NormalizeAudiences(audiences: seq<string>) returns (r: seq<string>)
    ensures r == CleanAudiences(audiences, {})
    ensures forall a :: a in r <==> a != "" && Names(audiences, a)
  {
    CleanAudiencesAre(audiences, {});
    r := [];
    var seen: set<string> := {};
    assert audiences[0..] == audiences;
    for i := 0 to |audiences|
      invariant CleanAudiences(audiences, {}) == r + CleanAudiences(audiences[i..], seen)
    {
      assert audiences[i..][1..] == audiences[i + 1..];
      var aud := Trim(audiences[i]);
      if aud == "" {
        continue;
      }
      if aud in seen {
        continue;
      }
      seen := seen + {aud};
      assert r + ([aud] + CleanAudiences(audiences[i + 1..], seen)) == (r + [aud]) + CleanAudiences(audiences[i + 1..], seen);
      r := r + [aud];
    }
  }

  method MachineMatchesJwt(m: Machine, claims: ClaimSet) returns (ok: bool)
    ensures ok == MachineMatches(m, claims)
  {
    if m.provider.None? {
      return false;
    }
    var sub := ClaimString(Get(claims, "sub"));
    if m.subject != "" && sub != m.subject {
      return false;
    }
    if m.subjectPrefix != "" && !HasPrefix(sub, m.subjectPrefix) {
      return false;
    }
    for i := 0 to |m.claims|
      invariant forall j :: 0 <= j < i ==> ConditionMatches(m.claims[j], claims)
    {
      var fits := ClaimConditionMatches(m.claims[i], claims);
      if !fits {
        return false;
      }
    }
    return true;
  }

  lemma NobodyWithoutIssuer(lib: Library, c: Config, cache: Cache, token: Token, web: Web)
    requires TokenIssuer(token).None? || TokenIssuer(token).value == ""
    ensures Owner(lib, c, cache, token, web) == None && TriedCache(lib, c, cache, token, web) == cache
  {
    assert Candidates(lib, c, cache, token, web) == {};
  }

  /** A list without repetitions that shows a set has one element exactly when the set has. */
  lemma OneOrNot(list: seq<Uuid>, who: set<Uuid>)
    requires Distinct(list) && forall m :: m in list <==> m in who
    ensures |list| == 1 ==> who == {list[0]}
    ensures |list| != 1 ==> forall m :: who != {m}
  {
    if |list| == 1 {
      assert list == [list[0]];
    } else if |list| > 1 {
      assert list[0] in who && list[1] in who && list[0] != list[1];
    }
  }

  class MachineIdentityService {
    const lib: Library
    var pools: map<Uuid, bool>
    var providers: map<Uuid, Provider>
    var machines: map<Uuid, Machine>
    var cache: Cache
    /** The moments the service has looked at the outside world. */
    ghost var webs: seq<Web>

    ghost function Tables(): Config
      reads this
    {
      Config(pools, providers, machines)
    }

    ghost function State(): World
      reads this
    {
      World(Tables(), cache, webs)
    }

    ghost predicate CacheValid()
      reads this
    {
      Coherent(lib, providers, cache, webs)
    }

    ghost predicate Valid()
      reads this
    {
      ConfigValid(Tables()) && CacheValid()
    }

    constructor (lib: Library)
      ensures Valid() && this.lib == lib && Tables() == Config(map[], map[], map[]) && cache == map[] && webs == []
    {
      this.lib, pools, providers, machines, cache, webs := lib, map[], map[], map[], map[], [];
    }

    // ---- key sets --------------------------------------------------------------------

    method KeysForProvider(id: Uuid, p: Provider, force: bool, web: Web) returns (keys: Option<KeySet>)
      requires CacheValid() && web in webs && id in providers && p == providers[id]
      modifies this`cache
      ensures CacheValid() && Lookup(cache, keys) == Keys(lib, old(cache), id, p, force, web)
      // whatever is handed out was yielded by the current configuration less than an hour ago
      ensures keys.Some? ==> exists i :: 0 <= i < |webs| && KeysFrom(lib, p, webs[i]) == keys
                                         && web.now - webs[i].now < TTL
    {
      LookupKeepsCoherence(lib, providers, cache, webs, id, force, web);
      if !force {
        if id in cache && web.now - cache[id].fetchedAt < TTL {
          assert EntryIsFrom(lib, p, cache[id], webs);
          return Some(cache[id].keys);
        }
      }
      keys := None;
      match p.mode {
        case Static =>
          keys := ParseJwks(lib, p.jwks);
        case Uri =>
          keys := FetchJwks(lib, web, p.jwksUri);
        case Discovery =>
          var uri := web.discover(p.issuer);
          if uri.Some? {
            keys := FetchJwks(lib, web, uri.value);
          }
      }
      if keys.Some? {
        cache := cache[id := Entry(keys.value, web.now)];
      }
    }

    method InvalidateJwks(id: Uuid)
      requires forall other :: other != id && other in cache && other in providers ==>
                 EntryIsFrom(lib, providers[other], cache[other], webs)
      modifies this`cache
      ensures CacheValid() && cache == old(cache) - {id}
    {
      cache := cache - {id};
    }

    method VerifyMachineJwt(id: Uuid, p: Provider, token: Token, web: Web) returns (ok: bool)
      requires CacheValid() && web in webs && id in providers && p == providers[id]
      modifies this`cache
      ensures CacheValid() && Verified(cache, ok) == Verify(lib, old(cache), id, p, token, web)
      ensures ok <==> TokenLaws.Genuine(lib, old(cache), id, p, token, web)
    {
      TokenLaws.VerifiedIsGenuine(lib, cache, id, p, token, web);
      if !token.parses {
        return false;
      }
      var keys := KeysForProvider(id, p, false, web);
      if keys.None? {
        return false;
      }
      var key := FindKey(keys.value, token.kid);
      if key.None? {
        keys := KeysForProvider(id, p, true, web);
        if keys.None? {
          return false;
        }
        key := FindKey(keys.value, token.kid);
        if key.None? {
          return false;
        }
      }
      if !token.opens(key.value) {
        return false;
      }
      if !TimeAndIssuerFit(lib, token.claims, p.issuer, web.now) {
        return false;
      }
      return AudienceMatches(Get(token.claims, "aud"), p.audiences);
    }

    // ---- authentication --------------------------------------------------------------

    /** The inner loop: the machines of one provider that match. */
    method MatchingMachines(provider: Uuid, claims: ClaimSet) returns (found: seq<Uuid>)
      ensures Distinct(found)
      ensures forall m :: m in found <==> m in EnabledMachines(Tables(), provider) && MachineMatches(machines[m], claims)
    {
      found := [];
      var list := ListIds(EnabledMachines(Config(pools, providers, machines), provider));
      for i := 0 to |list|
        invariant Distinct(found)
        invariant forall m :: m in found <==> m in machines && m in list[..i] && MachineMatches(machines[m], claims)
      {
        assert list[i] in list;
        assert list[..i + 1] == list[..i] + [list[i]];
        var fits := MachineMatchesJwt(machines[list[i]], claims);
        if fits {
          assert list[i] !in list[..i];
          Joined(found, [list[i]]);
          found := found + [list[i]];
        }
      }
      assert list[..|list|] == list;
    }

    /** Succeeds exactly for the only candidate, in whatever order the rows are listed. */
    method AuthenticateJwt(token: Token, web: Web) returns (r: Result<Principal, MachineError>)
      requires Valid()
      modifies this`cache, this`webs
      ensures Valid() && webs == old(webs) + [web]
      ensures cache == TriedCache(lib, Tables(), old(cache), token, web)
      ensures var owner := Owner(lib, Tables(), old(cache), token, web);
              match r
              case Ok(principal) =>
                owner == Some(principal.machine)
                && principal == Principal(principal.machine, machines[principal.machine].pool,
                                          machines[principal.machine].name,
                                          ClaimString(Get(token.claims, "iss")), ClaimString(Get(token.claims, "sub")))
              case Err(e) => owner == None && e == Unauthenticated
      // in terms of signature, claims and configuration alone
      ensures r.Ok? ==> TokenLaws.OnlyAccepted(lib, Tables(), old(cache), token, web, r.value.machine)
      ensures r.Err? ==> forall m: Uuid :: !TokenLaws.OnlyAccepted(lib, Tables(), old(cache), token, web, m)
    {
      TokenLaws.OwnerIsOnlyAccepted(lib, Tables(), cache, token, web);
      CoherentLater(lib, providers, cache, webs, web);
      webs := webs + [web];
      var issuer := TokenIssuer(token);
      if issuer.None? || issuer.value == "" {
        NobodyWithoutIssuer(lib, Tables(), cache, token, web);
        return Err(Unauthenticated);
      }
      var list := ListIds(EnabledProviders(Config(pools, providers, machines), issuer.value));
      var matches := CollectMatches(list, token, web);
      assert Members(list) == Tried(Tables(), token);
      FoundAreCandidates(Tables(), list, old(cache), token, web);
      OneOrNot(matches, Candidates(lib, Tables(), old(cache), token, web));
      if |matches| != 1 {
        return Err(Unauthenticated);
      }
      assert matches[0] in matches;
      var machine := machines[matches[0]];
      return Ok(Principal(matches[0], machine.pool, machine.name,
                          ClaimString(Get(token.claims, "iss")), ClaimString(Get(token.claims, "sub"))));
    }

    /** What the outer loop finds under all providers it tries are the candidates. */
    lemma FoundAreCandidates(c: Config, list: seq<Uuid>, cache0: Cache, token: Token, web: Web)
      requires Members(list) == Tried(c, token) && TokenIssuer(token).Some? && TokenIssuer(token).value != ""
      ensures forall m :: m in Candidates(lib, c, cache0, token, web) <==> FoundUnder(c, list, cache0, token, web, m)
    {
      forall m
        ensures m in Candidates(lib, c, cache0, token, web) <==> FoundUnder(c, list, cache0, token, web, m)
      {
        assert m in c.machines && c.machines[m].provider.Some? ==>
            (c.machines[m].provider.value in list <==> c.machines[m].provider.value in Members(list));
      }
    }

    /** The outer loop over the listed providers. */
    method CollectMatches(list: seq<Uuid>, token: Token, web: Web) returns (matches: seq<Uuid>)
      requires CacheValid() && web in webs && Distinct(list)
      requires forall p :: p in list ==> p in providers
      modifies this`cache
      ensures CacheValid() && Distinct(matches)
      ensures forall m :: m in matches <==> FoundUnder(Tables(), list, old(cache), token, web, m)
      ensures cache == CacheAfter(lib, providers, old(cache), Members(list), token, web)
    {
      matches := [];
      for i := 0 to |list|
        invariant CacheValid() && Distinct(matches)
        invariant cache == CacheAfter(lib, providers, old(cache), Members(list[..i]), token, web)
        invariant forall m :: m in matches <==> FoundUnder(Tables(), list[..i], old(cache), token, web, m)
      {
        Split(list, i);
        OneMore(lib, providers, old(cache), Members(list[..i]), list[i], token, web);
        FoundAfter(Tables(), list[..i], list[i], old(cache), cache, token, web);
        var found := MatchesUnder(list[i], token, web);
        Joined(matches, found);
        matches := matches + found;
      }
      assert list[..|list|] == list;
    }

    /** One round of the outer loop. */
    method MatchesUnder(p: Uuid, token: Token, web: Web) returns (found: seq<Uuid>)
      requires CacheValid() && web in webs && p in providers
      modifies this`cache
      ensures CacheValid() && Distinct(found)
      ensures forall m :: m in found <==> FoundUnder(Tables(), [p], old(cache), token, web, m)
      ensures cache == Verify(lib, old(cache), p, providers[p], token, web).cache
    {
      var ok := VerifyMachineJwt(p, providers[p], token, web);
      if !ok {
        return [];
      }
      found := MatchingMachines(p, token.claims);
    }

    /** Adding a provider to the list; its verdict reads its own cache entry only. */
    lemma FoundAfter(c: Config, list: seq<Uuid>, p: Uuid, cache0: Cache, cache1: Cache, token: Token, web: Web)
      requires p in c.providers && SameAt(cache0, cache1, p)
      ensures forall m :: FoundUnder(c, list + [p], cache0, token, web, m) <==>
                FoundUnder(c, list, cache0, token, web, m) || FoundUnder(c, [p], cache1, token, web, m)
    {
      VerifyIsLocal(lib, cache0, cache1, p, c.providers[p], token, web);
    }

    /** m is an enabled machine bound to one of the listed providers, under which the token
        verifies, and it matches. */
    ghost predicate FoundUnder(c: Config, list: seq<Uuid>, cache0: Cache, token: Token, web: Web, m: Uuid) {
      m in c.machines && c.machines[m].enabled && PoolEnabled(c, c.machines[m].pool)
      && c.machines[m].provider.Some? && c.machines[m].provider.value in list
      && c.machines[m].provider.value in c.providers
      && Verify(lib, cache0, c.machines[m].provider.value, c.providers[c.machines[m].provider.value], token, web).ok
      && MachineMatches(c.machines[m], token.claims)
    }

    // ---- pools -----------------------------------------------------------------------

    method CreatePool(id: Uuid, enabled: Option<bool>)
      requires Valid() && id !in pools
      modifies this`pools
      ensures Valid() && pools == old(pools)[id := Or(enabled, true)]
    {
      pools := pools[id := Or(enabled, true)];
      PoolsGrow(Config(old(pools), providers, machines), Tables());
    }

    method UpdatePool(id: Uuid, enabled: Option<bool>) returns (err: Option<MachineError>)
      requires Valid()
      modifies this`pools
      ensures Valid() && (err == None <==> id in old(pools)) && (err.Some? ==> err.value == PoolNotFound)
      ensures pools == if err == None then old(pools)[id := Or(enabled, old(pools)[id])] else old(pools)
    {
      if id !in pools {
        return Some(PoolNotFound);
      }
      pools := pools[id := Or(enabled, pools[id])];
      PoolsGrow(Config(old(pools), providers, machines), Tables());
      return None;
    }

    /** Deletes the pool, and with it, by ON DELETE CASCADE, its providers and machines.  The
        ON DELETE SET NULL of the removed providers touches no machine that remains. */
    method DeletePool(id: Uuid) returns (err: Option<MachineError>)
      requires Valid()
      modifies this`pools, this`providers, this`machines
      ensures Valid() && (err == None <==> id in old(pools)) && (err.Some? ==> err.value == PoolNotFound)
      ensures err.Some? ==> Tables() == old(Tables())
      ensures err == None ==>
                pools == old(pools) - {id}
                && providers == (map p | p in old(providers) && old(providers)[p].pool != id :: old(providers)[p])
                && machines == (map m | m in old(machines) && old(machines)[m].pool != id :: old(machines)[m])
    {
      if id !in pools {
        return Some(PoolNotFound);
      }
      ghost var before := Tables();
      pools := pools - {id};
      var kept := map p | p in providers && providers[p].pool != id :: providers[p];
      machines := map m | m in machines && machines[m].pool != id :: Unbound(machines[m], providers.Keys - kept.Keys);
      providers := kept;
      PoolGoes(before, Tables(), id);
      return None;
    }

    // ---- providers -------------------------------------------------------------------

    method GetProvider(pool: Uuid, id: Uuid) returns (r: Result<Provider, MachineError>)
      requires Valid()
      ensures r.Ok? <==> pool in pools && id in providers && providers[id].pool == pool
      ensures r.Ok? ==> r.value == providers[id]
      ensures r.Err? ==> r.error == if pool !in pools then PoolNotFound else ProviderNotFound
    {
      if pool !in pools {
        return Err(PoolNotFound);
      }
      if id !in providers {
        return Err(ProviderNotFound);
      }
      var p := providers[id];
      if p.pool != pool {
        return Err(ProviderNotFound);
      }
      if p.mode != Static {
        p := p.(jwks := "");
      }
      assert ProviderFits(Tables(), providers[id]);
      return Ok(p);
    }

    method Normalized(pool: Uuid, t: ProviderText, enabled: bool) returns (r: Result<Provider, MachineError>)
      ensures r == NormalizeProvider(lib, pool, t, enabled)
    {
      var name := Trim(t.name);
      if name == "" {
        return Err(InvalidProvider);
      }
      var issuer := lib.httpsUrl(t.issuer);
      if issuer.None? {
        return Err(InvalidProvider);
      }
      var audiences := NormalizeAudiences(t.audiences);
      if |audiences| == 0 {
        return Err(InvalidProvider);
      }
      match t.mode {
        case None =>
          return Err(InvalidProvider);
        case Some(Discovery) =>
          return Ok(Provider(pool, name, issuer.value, audiences, Discovery, "", "", enabled));
        case Some(Uri) =>
          var uri := lib.httpsUrl(t.jwksUri);
          if uri.None? {
            return Err(InvalidProvider);
          }
          return Ok(Provider(pool, name, issuer.value, audiences, Uri, uri.value, "", enabled));
        case Some(Static) =>
          if ParseJwks(lib, t.jwks).None? {
            return Err(InvalidProvider);
          }
          return Ok(Provider(pool, name, issuer.value, audiences, Static, "", t.jwks, enabled));
      }
    }

    method EnsureProviderUnique(p: Provider, self: Option<Uuid>) returns (err: Option<MachineError>)
      ensures err == None <==> ProviderUnique(providers, p, self)
      ensures err == Some(ProviderNameTaken) <==>
                exists o :: o in providers && Some(o) != self && providers[o].pool == p.pool && providers[o].name == p.name
    {
      if exists o | o in providers :: Some(o) != self && providers[o].pool == p.pool && providers[o].name == p.name {
        return Some(ProviderNameTaken);
      }
      if exists o | o in providers :: Some(o) != self && providers[o].pool == p.pool && providers[o].issuer == p.issuer {
        return Some(ProviderIssuerTaken);
      }
      return None;
    }

    /** The new uuid is neither live nor left behind in the cache by a deleted pool. */
    method CreateProvider(pool: Uuid, id: Uuid, t: ProviderText, enabled: Option<bool>)
      returns (r: Result<Provider, MachineError>)
      requires Valid() && id !in providers && id !in cache
      modifies this`providers
      ensures Valid()
      ensures var n := NormalizeProvider(lib, pool, t, Or(enabled, true));
              (r.Ok? <==> pool in pools && n.Ok? && ProviderUnique(old(providers), n.value, None))
              && (r.Ok? ==> r == n)
      ensures providers == if r.Ok? then old(providers)[id := r.value] else old(providers)
    {
      if pool !in pools {
        return Err(PoolNotFound);
      }
      r := Normalized(pool, t, Or(enabled, true));
      if r.Err? {
        return;
      }
      var err := EnsureProviderUnique(r.value, None);
      if err.Some? {
        return Err(err.value);
      }
      ghost var before := Tables();
      providers := providers[id := r.value];
      ProviderWritten(before, Tables(), id, r.value);
    }

    /** Writes the row and drops the cached keys, which an earlier configuration may have yielded. */
    method UpdateProvider(pool: Uuid, id: Uuid, change: ProviderChange) returns (r: Result<Provider, MachineError>)
      requires Valid()
      modifies this`providers, this`cache
      ensures Valid()
      ensures if pool !in pools then r == Err(PoolNotFound)
              else if id !in old(providers) || old(providers)[id].pool != pool then r == Err(ProviderNotFound)
              else
                var n := NormalizeProvider(lib, pool, Merged(old(providers)[id], change),
                                           Or(change.enabled, old(providers)[id].enabled));
                (r.Ok? <==> n.Ok? && ProviderUnique(old(providers), n.value, Some(id)))
                && (r.Ok? || n.Err? ==> r == n)
      ensures providers == if r.Ok? then old(providers)[id := r.value] else old(providers)
      ensures cache == if r.Ok? then old(cache) - {id} else old(cache)
    {
      r := GetProvider(pool, id);
      if r.Err? {
        return;
      }
      var current := r.value;
      r := Normalized(pool, Merged(current, change), Or(change.enabled, current.enabled));
      if r.Err? {
        return;
      }
      var err := EnsureProviderUnique(r.value, Some(id));
      if err.Some? {
        return Err(err.value);
      }
      Replace(id, r.value);
    }

    method Replace(id: Uuid, p: Provider)
      requires Valid() && id in providers && p.pool == providers[id].pool && ProviderFits(Tables(), p)
      requires ProviderUnique(providers, p, Some(id))
      modifies this`providers, this`cache
      ensures Valid() && providers == old(providers)[id := p] && cache == old(cache) - {id}
    {
      ghost var before := Tables();
      providers := providers[id := p];
      ProviderWritten(before, Tables(), id, p);
      InvalidateJwks(id);
    }

    /** Deletes the provider; by ON DELETE SET NULL its machines stay without one. */
    method DeleteProvider(pool: Uuid, id: Uuid) returns (err: Option<MachineError>)
      requires Valid()
      modifies this`providers, this`machines, this`cache
      ensures Valid()
      ensures err == None <==> pool in pools && id in old(providers) && old(providers)[id].pool == pool
      ensures err.Some? ==> Tables() == old(Tables()) && cache == old(cache)
      ensures err == None ==>
                providers == old(providers) - {id} && cache == old(cache) - {id}
                && machines == (map m | m in old(machines) :: Unbound(old(machines)[m], {id}))
    {
      var p := GetProvider(pool, id);
      if p.Err? {
        return Some(p.error);
      }
      ghost var before := Tables();
      providers := providers - {id};
      machines := map m | m in machines :: Unbound(machines[m], {id});
      ProviderGoes(before, Tables(), id);
      InvalidateJwks(id);
      return None;
    }

    method RefreshProviderJwks(pool: Uuid, id: Uuid, web: Web) returns (r: Result<Provider, MachineError>)
      requires Valid()
      modifies this`cache, this`webs
      ensures Valid()
      ensures r.Ok? <==> pool in pools && id in providers && providers[id].pool == pool && providers[id].mode != Static
                         && KeysFrom(lib, providers[id], web).Some?
      ensures cache == if r.Ok? then old(cache)[id := Entry(KeysFrom(lib, providers[id], web).value, web.now)]
                       else if pool in pools && id in providers && providers[id].pool == pool
                               && providers[id].mode != Static then old(cache) - {id}
                       else old(cache)
      ensures webs == if pool in pools && id in providers && providers[id].pool == pool && providers[id].mode != Static
                      then old(webs) + [web] else old(webs)
    {
      r := GetProvider(pool, id);
      if r.Err? {
        return;
      }
      var p := r.value;
      if p.mode == Static {
        return Err(InvalidProvider);
      }
      CoherentLater(lib, providers, cache, webs, web);
      webs := webs + [web];
      InvalidateJwks(id);
      var keys := KeysForProvider(id, p, true, web);
      if keys.None? {
        return Err(InvalidProvider);
      }
      return Ok(p);
    }

    // ---- machines --------------------------------------------------------------------

    method BuildMachine(pool: Uuid, t: MachineText) returns (r: Result<Machine, MachineError>)
      ensures r == Built(providers, pool, t)
    {
      var name := Trim(t.name);
      if name == "" {
        return Err(InvalidMachine);
      }
      var subject := Trim(t.subject);
      var subjectPrefix := Trim(t.subjectPrefix);
      var normalized := NormalizeClaimConditions(t.claims);
      if normalized.Err? {
        return Err(InvalidMachine);
      }
      var claims := normalized.value;
      if t.provider.Some? {
        if t.provider.value !in providers {
          return Err(InvalidMachine);
        }
        if providers[t.provider.value].pool != pool {
          return Err(InvalidMachine);
        }
        if subject == "" && subjectPrefix == "" && |claims| == 0 {
          return Err(InvalidMachine);
        }
      } else {
        subject := "";
        subjectPrefix := "";
        claims := [];
      }
      return Ok(Machine(pool, name, Trim(t.description), t.enabled, t.provider, subject, subjectPrefix, claims));
    }

    method CreateMachine(pool: Uuid, id: Uuid, t: MachineText) returns (r: Result<Machine, MachineError>)
      requires Valid() && id !in machines
      modifies this`machines
      ensures Valid()
      ensures var m := Built(providers, pool, t);
              (r.Ok? <==> pool in pools && m.Ok? && MachineNameFree(old(machines), m.value, None))
              && (r.Ok? ==> r == m)
      ensures machines == if r.Ok? then old(machines)[id := AsStored(r.value)] else old(machines)
    {
      if pool !in pools {
        return Err(PoolNotFound);
      }
      r := BuildMachine(pool, t);
      if r.Err? {
        return;
      }
      if !MachineNameFree(machines, r.value, None) {
        return Err(MachineNameTaken);
      }
      WriteMachine(id, r.value);
    }

    method WriteMachine(id: Uuid, m: Machine)
      requires Valid() && MachineFits(Tables(), AsStored(m)) && MachineNameFree(machines, m, Some(id))
      modifies this`machines
      ensures Valid() && machines == old(machines)[id := AsStored(m)]
    {
      ghost var before := Tables();
      machines := machines[id := AsStored(m)];
      MachineWritten(before, Tables(), id, AsStored(m));
    }

    method UpdateMachine(pool: Uuid, id: Uuid, change: MachineChange) returns (r: Result<Machine, MachineError>)
      requires Valid()
      modifies this`machines
      ensures Valid()
      ensures if pool !in pools then r == Err(PoolNotFound)
              else if id !in old(machines) || old(machines)[id].pool != pool then r == Err(MachineNotFound)
              else
                var m := Built(providers, pool, MergedMachine(old(machines)[id], change));
                (r.Ok? <==> m.Ok? && MachineNameFree(old(machines), m.value, Some(id)))
                && (r.Ok? || m.Err? ==> r == m)
      ensures machines == if r.Ok? then old(machines)[id := AsStored(r.value)] else old(machines)
    {
      if pool !in pools {
        return Err(PoolNotFound);
      }
      if id !in machines || machines[id].pool != pool {
        return Err(MachineNotFound);
      }
      r := BuildMachine(pool, MergedMachine(machines[id], change));
      if r.Err? {
        return;
      }
      if !MachineNameFree(machines, r.value, Some(id)) {
        return Err(MachineNameTaken);
      }
      WriteMachine(id, r.value);
    }

    method DeleteMachine(pool: Uuid, id: Uuid) returns (err: Option<MachineError>)
      requires Valid()
      modifies this`machines
      ensures Valid()
      ensures err == None <==> pool in pools && id in old(machines) && old(machines)[id].pool == pool
      ensures machines == if err == None then old(machines) - {id} else old(machines)
    {
      if pool !in pools {
        return Some(PoolNotFound);
      }
      if id !in machines || machines[id].pool != pool {
        return Some(MachineNotFound);
      }
      ghost var before := Tables();
      machines := machines - {id};
      MachineGoes(before, Tables(), id);
      return None;
    }
  }

  lemma Split(list: seq<Uuid>, i: nat)
    requires Distinct(list) && i < |list|
    ensures list[i] in list && list[i] !in list[..i] && list[..i + 1] == list[..i] + [list[i]]
    ensures Members(list[..i]) <= Members(list) && Members(list[..i + 1]) == Members(list[..i]) + {list[i]}
  {
  }

  /** Chaining two lists without repetitions and without common elements. */
  lemma Joined(a: seq<Uuid>, b: seq<Uuid>)
    requires Distinct(a) && Distinct(b) && forall m :: m in a ==> m !in b
    ensures Distinct(a + b)
  {
    forall i, j | 0 <= i < j < |a + b|
      ensures (a + b)[i] != (a + b)[j]
    {
      if i < |a| <= j {
        assert a[i] in a && b[j - |a|] in b;
      }
    }
  }

  // ---- the object performs the calls -------------------------------------------------

  method PerformOnPool(s: MachineIdentityService, call: Call)
    requires s.Valid() && (call.CallCreatePool? || call.CallUpdatePool? || call.CallDeletePool?)
    modifies s
    ensures s.Valid() && s.State() == Apply(s.lib, old(s.State()), call)
  {
    match call {
      case CallCreatePool(pool, enabled) =>
        if pool !in s.pools {
          s.CreatePool(pool, enabled);
        }
      case CallUpdatePool(pool, enabled) => var err := s.UpdatePool(pool, enabled);
      case CallDeletePool(pool) => var err := s.DeletePool(pool);
    }
  }

  method PerformOnProvider(s: MachineIdentityService, call: Call)
    requires s.Valid() && (call.CallCreateProvider? || call.CallUpdateProvider? || call.CallDeleteProvider?)
    modifies s
    ensures s.Valid() && s.State() == Apply(s.lib, old(s.State()), call)
  {
    match call {
      case CallCreateProvider(pool, id, provider, enabled) =>
        if id !in s.providers && id !in s.cache {
          var r := s.CreateProvider(pool, id, provider, enabled);
        }
      case CallUpdateProvider(pool, id, change) => var r := s.UpdateProvider(pool, id, change);
      case CallDeleteProvider(pool, id) => var err := s.DeleteProvider(pool, id);
    }
  }

  method PerformOnMachine(s: MachineIdentityService, call: Call)
    requires s.Valid() && (call.CallCreateMachine? || call.CallUpdateMachine? || call.CallDeleteMachine?)
    modifies s
    ensures s.Valid() && s.State() == Apply(s.lib, old(s.State()), call)
  {
    match call {
      case CallCreateMachine(pool, id, machine) =>
        if id !in s.machines {
          var r := s.CreateMachine(pool, id, machine);
        }
      case CallUpdateMachine(pool, id, change) => var r := s.UpdateMachine(pool, id, change);
      case CallDeleteMachine(pool, id) => var err := s.DeleteMachine(pool, id);
    }
  }

  method Perform(s: MachineIdentityService, call: Call)
    requires s.Valid()
    modifies s
    ensures s.Valid() && s.State() == Apply(s.lib, old(s.State()), call)
  {
    match call {
      case CallRefresh(pool, id, web) => var r := s.RefreshProviderJwks(pool, id, web);
      case CallAuthenticate(token, web) => var r := s.AuthenticateJwt(token, web);
      case CallCreatePool(_, _) => PerformOnPool(s, call);
      case CallUpdatePool(_, _) => PerformOnPool(s, call);
      case CallDeletePool(_) => PerformOnPool(s, call);
      case CallCreateProvider(_, _, _, _) => PerformOnProvider(s, call);
      case CallUpdateProvider(_, _, _) => PerformOnProvider(s, call);
      case CallDeleteProvider(_, _) => PerformOnProvider(s, call);
      case _ => PerformOnMachine(s, call);
    }
  }

  /** A new service, driven through any calls, ends where the run of the calls ends: what is proved of
      reachable worlds is proved of every such service. */
  method RunAll(lib: Library, calls: seq<Call>) returns (s: MachineIdentityService)
    ensures fresh(s) && s.lib == lib && s.Valid() && s.State() == Run(lib, calls)
  {
    if calls == [] {
      s := new MachineIdentityService(lib);
    } else {
      s := RunAll(lib, calls[..|calls| - 1]);
      Perform(s, calls[|calls| - 1]);
    }
  }
}
