/** Machine identities: pools, providers, machines, the key sets of providers, and which machine a
    token belongs to.
 */
module Machines {
  import opened Common
  import opened Claims

  type Uuid = nat

  datatype Key = Key(kid: string, material: nat)

  type KeySet = seq<Key>

  datatype JwksMode = Discovery | Uri | Static

  datatype Provider = Provider(
    pool: Uuid, name: string, issuer: string, audiences: seq<string>, mode: JwksMode, jwksUri: string,
    jwks: string, enabled: bool)

  datatype Machine = Machine(
    pool: Uuid, name: string, description: string, enabled: bool, provider: Option<Uuid>,
    subject: string, subjectPrefix: string, claims: seq<Condition>)

  /** The tables; of a pool only its enabled flag. */
  datatype Config = Config(pools: map<Uuid, bool>, providers: map<Uuid, Provider>, machines: map<Uuid, Machine>)

  datatype MachineError =
    | PoolNotFound
    | ProviderNotFound
    | MachineNotFound
    | InvalidProvider
    | InvalidMachine
    | ProviderNameTaken
    | ProviderIssuerTaken
    | MachineNameTaken
    | Unauthenticated

  /** Library code: decoding a JWK Set, normalising an HTTPS URL, reading a numeric date. */
  datatype Library = Library(
    decode: string -> Option<KeySet>, httpsUrl: string -> Option<string>, numericDate: Value -> Option<int>)

  /** One moment of the outside world: its clock and what the network would answer. */
  datatype Web = Web(now: int, discover: string -> Option<string>, fetch: string -> Option<string>)

  /** A raw token: whether it has three decodable parts, whether its headers parse under an allowed
      algorithm, its key id, its claims, and the keys its signature verifies under. */
  datatype Token = Token(decodes: bool, parses: bool, kid: string, claims: ClaimSet, opens: Key -> bool)

  // ---- key sets ----------------------------------------------------------------------

  function ParseJwks(lib: Library, document: string): (r: Option<KeySet>)
    ensures r.Some? ==> r.value != []
  {
    match lib.decode(document)
    case None => None
    case Some(keys) => if keys == [] then None else Some(keys)
  }

  function FetchJwks(lib: Library, web: Web, uri: string): Option<KeySet> {
    match web.fetch(uri)
    case None => None
    case Some(document) => ParseJwks(lib, document)
  }

  /** The key set the provider's configuration yields at one moment. */
  function KeysFrom(lib: Library, p: Provider, web: Web): Option<KeySet> {
    match p.mode
    case Static => ParseJwks(lib, p.jwks)
    case Uri => FetchJwks(lib, web, p.jwksUri)
    case Discovery =>
      match web.discover(p.issuer)
      case None => None
      case Some(uri) => FetchJwks(lib, web, uri)
  }

  const TTL: int := 3600

  datatype Entry = Entry(keys: KeySet, fetchedAt: int)

  type Cache = map<Uuid, Entry>

  datatype Lookup = Lookup(cache: Cache, keys: Option<KeySet>)

  /** keysForProvider */
  function Keys(lib: Library, cache: Cache, id: Uuid, p: Provider, force: bool, web: Web): Lookup {
    if !force && id in cache && web.now - cache[id].fetchedAt < TTL then Lookup(cache, Some(cache[id].keys))
    else match KeysFrom(lib, p, web)
      case None => Lookup(cache, None)
      case Some(keys) => Lookup(cache[id := Entry(keys, web.now)], Some(keys))
  }

  function FindKey(keys: KeySet, kid: string): Option<Key> {
    if kid != "" then FindKeyById(keys, kid)
    else if |keys| == 1 then Some(keys[0])
    else None
  }

  function FindKeyById(keys: KeySet, kid: string): Option<Key> {
    if keys == [] then None
    else if keys[0].kid == kid then Some(keys[0])
    else FindKeyById(keys[1..], kid)
  }

  // ---- verifying a token -------------------------------------------------------------

  function AudienceList(v: Value): seq<string> {
    match v
    case Text(s) => if s == "" then [] else [s]
    case TextList(texts) => texts
    case AnyList(items) => NonEmptyTexts(items)
    case _ => []
  }

  function NonEmptyTexts(items: seq<Value>): seq<string> {
    if items == [] then []
    else (if items[0].Text? && items[0].text != "" then [items[0].text] else []) + NonEmptyTexts(items[1..])
  }

  predicate AudienceMatches(v: Value, allowed: seq<string>) {
    exists i :: 0 <= i < |AudienceList(v)| && AudienceList(v)[i] in allowed
  }

  predicate TimeAndIssuerFit(lib: Library, claims: ClaimSet, issuer: string, now: int) {
    ClaimString(Get(claims, "iss")) == issuer
    && (lib.numericDate(Get(claims, "exp")).Some? ==> now < lib.numericDate(Get(claims, "exp")).value)
    && (lib.numericDate(Get(claims, "nbf")).Some? ==> lib.numericDate(Get(claims, "nbf")).value <= now)
  }

  datatype Verified = Verified(cache: Cache, ok: bool)

  predicate Fits(lib: Library, p: Provider, token: Token, key: Key, now: int) {
    token.opens(key) && TimeAndIssuerFit(lib, token.claims, p.issuer, now)
    && AudienceMatches(Get(token.claims, "aud"), p.audiences)
  }

  /** verifyMachineJWT: the cached keys first, then fresh ones if the key id is unknown. */
  function Verify(lib: Library, cache: Cache, id: Uuid, p: Provider, token: Token, web: Web): Verified {
    if !token.parses then Verified(cache, false)
    else
      var first := Keys(lib, cache, id, p, false, web);
      if first.keys.None? then Verified(first.cache, false)
      else if FindKey(first.keys.value, token.kid).Some? then
        Verified(first.cache, Fits(lib, p, token, FindKey(first.keys.value, token.kid).value, web.now))
      else
        var second := Keys(lib, first.cache, id, p, true, web);
        if second.keys.None? || FindKey(second.keys.value, token.kid).None? then Verified(second.cache, false)
        else Verified(second.cache, Fits(lib, p, token, FindKey(second.keys.value, token.kid).value, web.now))
  }

  ghost predicate SameAt(a: Cache, b: Cache, id: Uuid) {
    (id in a <==> id in b) && (id in a ==> a[id] == b[id])
  }

  /** Verifying under one provider reads and writes that provider's cache entry only. */
  lemma VerifyIsLocal(lib: Library, a: Cache, b: Cache, id: Uuid, p: Provider, token: Token, web: Web)
    requires SameAt(a, b, id)
    ensures Verify(lib, a, id, p, token, web).ok == Verify(lib, b, id, p, token, web).ok
    ensures SameAt(Verify(lib, a, id, p, token, web).cache, Verify(lib, b, id, p, token, web).cache, id)
    ensures forall other :: other != id ==> SameAt(Verify(lib, a, id, p, token, web).cache, a, other)
    ensures id in a ==> id in Verify(lib, a, id, p, token, web).cache
  {
  }

  /** The cache after the token has been tried under the given providers: their entries as verifying
      leaves them, all others unchanged. */
  function CacheAfter(
    lib: Library, providers: map<Uuid, Provider>, cache: Cache, tried: set<Uuid>, token: Token, web: Web): Cache
    requires tried <= providers.Keys
  {
    map id | id in cache.Keys + tried && (id in tried ==> id in Verify(lib, cache, id, providers[id], token, web).cache)
      :: if id in tried then Verify(lib, cache, id, providers[id], token, web).cache[id] else cache[id]
  }

  lemma CacheAfterAt(
    lib: Library, providers: map<Uuid, Provider>, cache: Cache, tried: set<Uuid>, token: Token, web: Web, id: Uuid)
    requires tried <= providers.Keys
    ensures var after := CacheAfter(lib, providers, cache, tried, token, web);
            if id in tried then SameAt(after, Verify(lib, cache, id, providers[id], token, web).cache, id)
            else SameAt(after, cache, id)
  {
    if id in tried {
      VerifyIsLocal(lib, cache, cache, id, providers[id], token, web);
    }
  }

  /** Providers can be tried one after the other, in any order. */
  lemma OneMore(
    lib: Library, providers: map<Uuid, Provider>, cache: Cache, tried: set<Uuid>, p: Uuid, token: Token, web: Web)
    requires tried <= providers.Keys && p in providers && p !in tried
    ensures var before := CacheAfter(lib, providers, cache, tried, token, web);
            SameAt(cache, before, p)
            && Verify(lib, before, p, providers[p], token, web).cache
               == CacheAfter(lib, providers, cache, tried + {p}, token, web)
  {
    var before := CacheAfter(lib, providers, cache, tried, token, web);
    var left := Verify(lib, before, p, providers[p], token, web).cache;
    var right := CacheAfter(lib, providers, cache, tried + {p}, token, web);
    CacheAfterAt(lib, providers, cache, tried, token, web, p);
    VerifyIsLocal(lib, before, cache, p, providers[p], token, web);
    forall id
      ensures SameAt(left, right, id)
    {
      CacheAfterAt(lib, providers, cache, tried, token, web, id);
      CacheAfterAt(lib, providers, cache, tried + {p}, token, web, id);
      assert id != p ==> SameAt(left, before, id);
    }
    SameEverywhere(left, right);
  }

  lemma SameEverywhere(a: Cache, b: Cache)
    requires forall id :: SameAt(a, b, id)
    ensures a == b
  {
    forall id
      ensures id in a <==> id in b
      ensures id in a ==> a[id] == b[id]
    {
      assert SameAt(a, b, id);
    }
  }

  /** The verdict, without the cache: some key set the provider had, known now or cached within the
      hour, holds the key. */
  lemma VerifyMeans(lib: Library, cache: Cache, id: Uuid, p: Provider, token: Token, web: Web)
    ensures var known := if id in cache && web.now - cache[id].fetchedAt < TTL then Some(cache[id].keys)
                         else KeysFrom(lib, p, web);
            Verify(lib, cache, id, p, token, web).ok <==>
              token.parses && known.Some?
              && var key := if FindKey(known.value, token.kid).Some? then FindKey(known.value, token.kid)
                            else if KeysFrom(lib, p, web).Some? then FindKey(KeysFrom(lib, p, web).value, token.kid)
                            else None;
                 key.Some? && Fits(lib, p, token, key.value, web.now)
  {
  }

  // ---- which machine a token belongs to ----------------------------------------------

  predicate MachineMatches(m: Machine, claims: ClaimSet) {
    m.provider.Some?
    && var sub := ClaimString(Get(claims, "sub"));
       (m.subject != "" ==> sub == m.subject)
       && (m.subjectPrefix != "" ==> HasPrefix(sub, m.subjectPrefix))
       && AllMatch(m.claims, claims)
  }

  predicate PoolEnabled(c: Config, pool: Uuid) {
    pool in c.pools && c.pools[pool]
  }

  /** ListEnabledByIssuer */
  function EnabledProviders(c: Config, issuer: string): set<Uuid> {
    set p | p in c.providers && c.providers[p].issuer == issuer && c.providers[p].enabled
            && PoolEnabled(c, c.providers[p].pool)
  }

  /** ListEnabledByProvider */
  function EnabledMachines(c: Config, provider: Uuid): set<Uuid> {
    set m | m in c.machines && c.machines[m].provider == Some(provider) && c.machines[m].enabled
            && PoolEnabled(c, c.machines[m].pool)
  }

  /** unverifiedJWTIssuer, None for a token it rejects. */
  function TokenIssuer(token: Token): Option<string> {
    if !token.decodes then None
    else match Get(token.claims, "iss")
      case Text(s) => Some(Trim(s))
      case _ => if "iss" in token.claims then None else Some("")
  }

  /** m is enabled in an enabled pool, is bound to an enabled provider in an enabled pool with the
      token's issuer, under which the token verifies, and has constraints that all match. */
  ghost predicate IsCandidate(lib: Library, c: Config, cache: Cache, token: Token, web: Web, m: Uuid) {
    m in c.machines && c.machines[m].enabled && PoolEnabled(c, c.machines[m].pool)
    && TokenIssuer(token).Some? && TokenIssuer(token).value != ""
    && c.machines[m].provider.Some?
    && var p := c.machines[m].provider.value;
       p in EnabledProviders(c, TokenIssuer(token).value)
       && Verify(lib, cache, p, c.providers[p], token, web).ok
       && MachineMatches(c.machines[m], token.claims)
  }

  ghost function Candidates(lib: Library, c: Config, cache: Cache, token: Token, web: Web): set<Uuid> {
    set m | m in c.machines && IsCandidate(lib, c, cache, token, web, m)
  }

  /** The providers AuthenticateJWT tries. */
  function Tried(c: Config, token: Token): (r: set<Uuid>)
    ensures r <= c.providers.Keys
  {
    if TokenIssuer(token).Some? && TokenIssuer(token).value != "" then EnabledProviders(c, TokenIssuer(token).value)
    else {}
  }

  /** The cache AuthenticateJWT leaves. */
  function TriedCache(lib: Library, c: Config, cache: Cache, token: Token, web: Web): Cache {
    CacheAfter(lib, c.providers, cache, Tried(c, token), token, web)
  }

  /** What AuthenticateJWT returns: the only candidate, or nobody. */
  ghost function Owner(lib: Library, c: Config, cache: Cache, token: Token, web: Web): (r: Option<Uuid>)
    ensures forall m :: r == Some(m) <==> Candidates(lib, c, cache, token, web) == {m}
  {
    if m :| Candidates(lib, c, cache, token, web) == {m} then Some(m) else None
  }

  /** Adding a machine, enabled or not, leaves the answer, takes it away, or gives a token nobody
      owned to the new machine; a token never passes from one existing machine to another. */
  lemma AddingNeverReattributes(
    lib: Library, c: Config, cache: Cache, token: Token, web: Web, id: Uuid, added: Machine)
    requires id !in c.machines
    ensures var before := Owner(lib, c, cache, token, web);
            var after := Owner(lib, c.(machines := c.machines[id := added]), cache, token, web);
            after == before || (before.Some? && after == None) || (before == None && after == Some(id))
  {
    var grown := c.(machines := c.machines[id := added]);
    var few, many := Candidates(lib, c, cache, token, web), Candidates(lib, grown, cache, token, web);
    forall m | m != id
      ensures m in few <==> m in many
    {
      assert IsCandidate(lib, c, cache, token, web, m) <==> IsCandidate(lib, grown, cache, token, web, m);
    }
    assert id !in few;
    assert many == few || many == few + {id};
    if Owner(lib, grown, cache, token, web).Some? {
      var m := Owner(lib, grown, cache, token, web).value;
      assert m in many;
      assert m != id ==> few == {m};
      assert m == id ==> few == {};
    }
  }

  /** Removing a machine that is no candidate changes nothing. */
  lemma BystandersDoNotMatter(lib: Library, c: Config, cache: Cache, token: Token, web: Web, gone: Uuid)
    requires gone !in Candidates(lib, c, cache, token, web)
    ensures Owner(lib, c.(machines := c.machines - {gone}), cache, token, web) == Owner(lib, c, cache, token, web)
  {
    var less := c.(machines := c.machines - {gone});
    forall m
      ensures m in Candidates(lib, c, cache, token, web) <==> m in Candidates(lib, less, cache, token, web)
    {
      assert m != gone ==>
          (IsCandidate(lib, c, cache, token, web, m) <==> IsCandidate(lib, less, cache, token, web, m));
    }
    assert Candidates(lib, c, cache, token, web) == Candidates(lib, less, cache, token, web);
  }

  // ---- what every configuration keeps ------------------------------------------------

  /** A stored condition names a claim and has a value to compare with. */
  predicate NonBlank(c: Condition) {
    c.claim != "" && c.op in {"eq", "prefix", "in"}
    && ((c.value.Text? && c.value.text != "") || (c.value.AnyList? && c.value.items != []))
  }

  predicate Constrained(m: Machine) {
    (m.subject != "" || m.subjectPrefix != "" || m.claims != [])
    && forall i :: 0 <= i < |m.claims| ==> NonBlank(m.claims[i])
  }

  /** A machine with a provider has one from its own pool, and something it must match. */
  predicate MachineFits(c: Config, m: Machine) {
    m.pool in c.pools
    && (m.provider.Some? ==>
          m.provider.value in c.providers && c.providers[m.provider.value].pool == m.pool && Constrained(m))
  }

  predicate ProviderFits(c: Config, p: Provider) {
    p.pool in c.pools && p.audiences != [] && (p.mode != Static ==> p.jwks == "") && (p.mode != Uri ==> p.jwksUri == "")
  }

  predicate ProviderClash(c: Config, a: Uuid, b: Uuid) {
    a in c.providers && b in c.providers && a != b && c.providers[a].pool == c.providers[b].pool
    && (c.providers[a].name == c.providers[b].name || c.providers[a].issuer == c.providers[b].issuer)
  }

  predicate MachineClash(c: Config, a: Uuid, b: Uuid) {
    a in c.machines && b in c.machines && a != b && c.machines[a].pool == c.machines[b].pool
    && c.machines[a].name == c.machines[b].name
  }

  ghost predicate ConfigValid(c: Config) {
    (forall p :: p in c.providers ==> ProviderFits(c, c.providers[p]))
    && (forall m :: m in c.machines ==> MachineFits(c, c.machines[m]))
    && (forall a, b :: !ProviderClash(c, a, b)) && (forall a, b :: !MachineClash(c, a, b))
  }

  /** In a valid configuration no machine is matched by a token without claims. */
  lemma NobodyMatchesNothing(c: Config, m: Uuid)
    requires ConfigValid(c) && m in c.machines
    ensures !MachineMatches(c.machines[m], map[])
  {
    var machine := c.machines[m];
    if machine.provider.Some? && machine.claims != [] {
      assert !ConditionMatches(machine.claims[0], map[]);
    }
  }

  /** A machine and the provider it is bound to sit in one pool, and each pool has at most one
      provider per issuer: candidates from one pool share their provider. */
  lemma CandidatesOfOnePool(lib: Library, c: Config, cache: Cache, token: Token, web: Web, a: Uuid, b: Uuid)
    requires ConfigValid(c)
    requires a in Candidates(lib, c, cache, token, web) && b in Candidates(lib, c, cache, token, web)
    requires c.machines[a].pool == c.machines[b].pool
    ensures c.machines[a].provider == c.machines[b].provider
  {
    assert IsCandidate(lib, c, cache, token, web, a) && IsCandidate(lib, c, cache, token, web, b);
    assert MachineFits(c, c.machines[a]) && MachineFits(c, c.machines[b]);
    assert !ProviderClash(c, c.machines[a].provider.value, c.machines[b].provider.value);
  }

  // ---- cache coherence ---------------------------------------------------------------

  /** The entry holds the keys the provider's configuration yielded at the moment of its stamp. */
  ghost predicate EntryIsFrom(lib: Library, p: Provider, e: Entry, webs: seq<Web>) {
    exists i :: 0 <= i < |webs| && KeysFrom(lib, p, webs[i]) == Some(e.keys) && webs[i].now == e.fetchedAt
  }

  /** Every entry of a live provider was obtained under its current configuration. */
  ghost predicate Coherent(lib: Library, providers: map<Uuid, Provider>, cache: Cache, webs: seq<Web>) {
    forall id :: id in cache && id in providers ==> EntryIsFrom(lib, providers[id], cache[id], webs)
  }

  /** In static mode the entry is the parse of the current document. */
  lemma StaticEntryIsTheDocument(lib: Library, providers: map<Uuid, Provider>, cache: Cache, webs: seq<Web>, id: Uuid)
    requires Coherent(lib, providers, cache, webs) && id in cache && id in providers && providers[id].mode == Static
    ensures ParseJwks(lib, providers[id].jwks) == Some(cache[id].keys)
  {
    assert EntryIsFrom(lib, providers[id], cache[id], webs);
  }

  lemma LaterWebs(lib: Library, p: Provider, e: Entry, webs: seq<Web>, web: Web)
    requires EntryIsFrom(lib, p, e, webs)
    ensures EntryIsFrom(lib, p, e, webs + [web])
  {
    var i :| 0 <= i < |webs| && KeysFrom(lib, p, webs[i]) == Some(e.keys) && webs[i].now == e.fetchedAt;
    assert (webs + [web])[i] == webs[i];
  }

  lemma CoherentLater(lib: Library, providers: map<Uuid, Provider>, cache: Cache, webs: seq<Web>, web: Web)
    requires Coherent(lib, providers, cache, webs)
    ensures Coherent(lib, providers, cache, webs + [web])
  {
    forall id | id in cache && id in providers
      ensures EntryIsFrom(lib, providers[id], cache[id], webs + [web])
    {
      LaterWebs(lib, providers[id], cache[id], webs, web);
    }
  }

  lemma LookupKeepsCoherence(
    lib: Library, providers: map<Uuid, Provider>, cache: Cache, webs: seq<Web>, id: Uuid, force: bool, web: Web)
    requires Coherent(lib, providers, cache, webs) && id in providers && web in webs
    ensures var l := Keys(lib, cache, id, providers[id], force, web);
            Coherent(lib, providers, l.cache, webs)
            && (l.keys.Some? ==> id in l.cache && l.cache[id].keys == l.keys.value && web.now - l.cache[id].fetchedAt < TTL)
  {
    var l := Keys(lib, cache, id, providers[id], force, web);
    var i :| 0 <= i < |webs| && webs[i] == web;
    forall other | other in l.cache && other in providers
      ensures EntryIsFrom(lib, providers[other], l.cache[other], webs)
    {
      if other != id || l.cache == cache {
        assert other in cache && l.cache[other] == cache[other];
      } else {
        assert KeysFrom(lib, providers[id], webs[i]) == Some(l.cache[id].keys);
      }
    }
  }

  lemma VerifyKeepsCoherence(
    lib: Library, providers: map<Uuid, Provider>, cache: Cache, webs: seq<Web>, id: Uuid, token: Token, web: Web)
    requires Coherent(lib, providers, cache, webs) && id in providers && web in webs
    ensures Coherent(lib, providers, Verify(lib, cache, id, providers[id], token, web).cache, webs)
  {
    LookupKeepsCoherence(lib, providers, cache, webs, id, false, web);
    LookupKeepsCoherence(lib, providers, Keys(lib, cache, id, providers[id], false, web).cache, webs, id, true, web);
  }

  lemma TriedCacheIsCoherent(lib: Library, c: Config, cache: Cache, webs: seq<Web>, token: Token, web: Web)
    requires Coherent(lib, c.providers, cache, webs) && web in webs
    ensures Coherent(lib, c.providers, TriedCache(lib, c, cache, token, web), webs)
  {
    var after := TriedCache(lib, c, cache, token, web);
    forall id | id in after && id in c.providers
      ensures EntryIsFrom(lib, c.providers[id], after[id], webs)
    {
      VerifyKeepsCoherence(lib, c.providers, cache, webs, id, token, web);
    }
  }

  // ---- normalising a provider --------------------------------------------------------

  /** The audiences that are left: trimmed, blank ones and repetitions dropped. */
  function CleanAudiences(audiences: seq<string>, seen: set<string>): seq<string> {
    if audiences == [] then []
    else
      var a := Trim(audiences[0]);
      if a == "" || a in seen then CleanAudiences(audiences[1..], seen)
      else [a] + CleanAudiences(audiences[1..], seen + {a})
  }

  ghost predicate Names(audiences: seq<string>, a: string) {
    exists i :: 0 <= i < |audiences| && Trim(audiences[i]) == a
  }

  lemma NamesFirst(audiences: seq<string>, a: string)
    requires audiences != []
    ensures Names(audiences, a) <==> a == Trim(audiences[0]) || Names(audiences[1..], a)
  {
    var rest := audiences[1..];
    if Names(rest, a) {
      var i :| 0 <= i < |rest| && Trim(rest[i]) == a;
      assert Trim(audiences[i + 1]) == a;
    }
    if Names(audiences, a) {
      var i :| 0 <= i < |audiences| && Trim(audiences[i]) == a;
      assert i > 0 ==> Trim(rest[i - 1]) == a;
    }
  }

  /** Exactly the non-blank trimmed audiences, each once. */
  lemma {:induction false} CleanAudiencesAre(audiences: seq<string>, seen: set<string>)
    ensures forall a :: a in CleanAudiences(audiences, seen) <==> a != "" && a !in seen && Names(audiences, a)
    ensures forall i, j :: 0 <= i < j < |CleanAudiences(audiences, seen)| ==>
              CleanAudiences(audiences, seen)[i] != CleanAudiences(audiences, seen)[j]
  {
    if audiences != [] {
      var first := Trim(audiences[0]);
      CleanAudiencesAre(audiences[1..], if first == "" || first in seen then seen else seen + {first});
      forall a
        ensures Names(audiences, a) <==> a == first || Names(audiences[1..], a)
      {
        NamesFirst(audiences, a);
      }
    }
  }

  /** What a caller gives for a provider, or what a stored one has. */
  datatype ProviderText = ProviderText(
    name: string, issuer: string, audiences: seq<string>, mode: Option<JwksMode>, jwksUri: string, jwks: string)

  function NormalizeProvider(lib: Library, pool: Uuid, t: ProviderText, enabled: bool): Result<Provider, MachineError> {
    var audiences := CleanAudiences(t.audiences, {});
    if Trim(t.name) == "" || lib.httpsUrl(t.issuer).None? || audiences == [] then Err(InvalidProvider)
    else match t.mode
      case None => Err(InvalidProvider)
      case Some(Discovery) => Ok(Provider(pool, Trim(t.name), lib.httpsUrl(t.issuer).value, audiences, Discovery, "", "", enabled))
      case Some(Uri) =>
        if lib.httpsUrl(t.jwksUri).None? then Err(InvalidProvider)
        else Ok(Provider(pool, Trim(t.name), lib.httpsUrl(t.issuer).value, audiences, Uri, lib.httpsUrl(t.jwksUri).value, "", enabled))
      case Some(Static) =>
        if ParseJwks(lib, t.jwks).None? then Err(InvalidProvider)
        else Ok(Provider(pool, Trim(t.name), lib.httpsUrl(t.issuer).value, audiences, Static, "", t.jwks, enabled))
  }

  lemma {:induction false} ClaimsAreNonBlank(conditions: seq<Condition>)
    requires NormalizeAll(conditions).Ok?
    ensures forall i :: 0 <= i < |NormalizeAll(conditions).value| ==> NonBlank(Stored(NormalizeAll(conditions).value[i]))
  {
    if conditions != [] {
      ClaimsAreNonBlank(conditions[1..]);
      var c := NormalizeAll(conditions).value[0];
      if c.op == "in" {
        assert c.value.texts != [];
      }
    }
  }
}
