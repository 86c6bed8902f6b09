/** When a token is accepted, and for whom, said in terms of its signature, its claims and the stored
    configuration alone.
 */
module TokenLaws {
  import opened Common
  import opened Claims
  import opened Machines

  // ---- key sets ----------------------------------------------------------------------

  /** The document a provider's keys come from. */
  predicate IsSource(p: Provider, web: Web, document: string) {
    match p.mode
    case Static => document == p.jwks
    case Uri => web.fetch(p.jwksUri) == Some(document)
    case Discovery => web.discover(p.issuer).Some? && web.fetch(web.discover(p.issuer).value) == Some(document)
  }

  /** A provider yields a key set exactly when it is not empty and the decoded document of its mode: the
      stored one, the one behind its URI, or the one behind the URI its issuer publishes. */
  lemma KeysComeFrom(lib: Library, p: Provider, web: Web, keys: KeySet)
    ensures KeysFrom(lib, p, web) == Some(keys) <==>
              keys != [] && exists document :: IsSource(p, web, document) && lib.decode(document) == Some(keys)
  {
    if keys != [] {
      if document :| IsSource(p, web, document) && lib.decode(document) == Some(keys) {
        assert KeysFrom(lib, p, web) == Some(keys);
      }
      if KeysFrom(lib, p, web) == Some(keys) {
        var document := match p.mode
          case Static => p.jwks
          case Uri => web.fetch(p.jwksUri).value
          case Discovery => web.fetch(web.discover(p.issuer).value).value;
        assert IsSource(p, web, document) && lib.decode(document) == Some(keys);
      }
    }
  }

  /** The key for a key id: the first with that id, or without an id the only key there is. */
  ghost predicate Chosen(keys: KeySet, kid: string, key: Key) {
    if kid == "" then keys == [key]
    else exists i :: 0 <= i < |keys| && IsFirst(keys, kid, i) && keys[i] == key
  }

  ghost predicate IsFirst(keys: KeySet, kid: string, i: nat)
    requires i < |keys|
  {
    keys[i].kid == kid && forall j :: 0 <= j < i ==> keys[j].kid != kid
  }

  lemma {:induction false} FirstById(keys: KeySet, kid: string, key: Key)
    ensures FindKeyById(keys, kid) == Some(key) <==> exists i :: 0 <= i < |keys| && IsFirst(keys, kid, i) && keys[i] == key
  {
    if keys != [] {
      FirstById(keys[1..], kid, key);
      if keys[0].kid == kid {
        assert IsFirst(keys, kid, 0);
      } else {
        if i :| 0 <= i < |keys[1..]| && IsFirst(keys[1..], kid, i) && keys[1..][i] == key {
          assert IsFirst(keys, kid, i + 1);
        }
        if i :| 0 <= i < |keys| && IsFirst(keys, kid, i) && keys[i] == key {
          assert i > 0;
          forall j | 0 <= j < i - 1
            ensures keys[1..][j].kid != kid
          {
            assert keys[1..][j] == keys[j + 1];
          }
          assert IsFirst(keys[1..], kid, i - 1);
        }
      }
    }
  }

  /** findJWK returns the key for the key id, and none exactly when there is none. */
  lemma FindsChosen(keys: KeySet, kid: string, key: Key)
    ensures FindKey(keys, kid) == Some(key) <==> Chosen(keys, kid, key)
  {
    FirstById(keys, kid, key);
  }

  /** What a lookup that may use the cache hands out: cached keys for an hour, then fresh ones. */
  function Known(lib: Library, cache: Cache, id: Uuid, p: Provider, web: Web): Option<KeySet> {
    if id in cache && web.now - cache[id].fetchedAt < 3600 then Some(cache[id].keys) else KeysFrom(lib, p, web)
  }

  /** The key under which a token is checked: the one for its key id among the keys known, or, if they
      lack it, among freshly fetched ones. */
  ghost predicate Supplies(lib: Library, cache: Cache, id: Uuid, p: Provider, web: Web, kid: string, key: Key) {
    var known := Known(lib, cache, id, p, web);
    known.Some?
    && (Chosen(known.value, kid, key)
        || ((forall k :: !Chosen(known.value, kid, k))
            && KeysFrom(lib, p, web).Some? && Chosen(KeysFrom(lib, p, web).value, kid, key)))
  }

  // ---- claims ------------------------------------------------------------------------

  /** The token names the audience, as its only one or among others. */
  predicate Names(v: Value, audience: string) {
    match v
    case Text(s) => audience == s && s != ""
    case TextList(texts) => audience in texts
    case AnyList(items) => audience != "" && Text(audience) in items
    case _ => false
  }

  lemma {:induction false} TextsAreItems(items: seq<Value>, a: string)
    ensures a in NonEmptyTexts(items) <==> a != "" && Text(a) in items
  {
    if items != [] {
      TextsAreItems(items[1..], a);
      assert items == [items[0]] + items[1..];
    }
  }

  lemma AudienceMeans(v: Value, allowed: seq<string>)
    ensures AudienceMatches(v, allowed) <==> exists a :: a in allowed && Names(v, a)
  {
    forall a
      ensures a in AudienceList(v) <==> Names(v, a)
    {
      if v.AnyList? {
        TextsAreItems(v.items, a);
      }
    }
    if a :| a in allowed && Names(v, a) {
      assert a in AudienceList(v);
      var i :| 0 <= i < |AudienceList(v)| && AudienceList(v)[i] == a;
    }
    if AudienceMatches(v, allowed) {
      var i :| 0 <= i < |AudienceList(v)| && AudienceList(v)[i] in allowed;
      assert AudienceList(v)[i] in AudienceList(v);
    }
  }

  /** Neither expired nor not yet valid, where the token says anything about it. */
  predicate InTime(lib: Library, claims: ClaimSet, now: int) {
    (match lib.numericDate(Get(claims, "exp")) case None => true case Some(exp) => now < exp)
    && (match lib.numericDate(Get(claims, "nbf")) case None => true case Some(nbf) => nbf <= now)
  }

  /** Issuer, time and audience suit the provider. */
  ghost predicate Suits(lib: Library, p: Provider, claims: ClaimSet, now: int) {
    ClaimString(Get(claims, "iss")) == p.issuer && InTime(lib, claims, now)
    && exists a :: a in p.audiences && Names(Get(claims, "aud"), a)
  }

  /** The token is signed under a key the provider supplies for it, and suits the provider. */
  ghost predicate Genuine(lib: Library, cache: Cache, id: Uuid, p: Provider, token: Token, web: Web) {
    token.parses
    && (exists key :: Supplies(lib, cache, id, p, web, token.kid, key) && token.opens(key))
    && Suits(lib, p, token.claims, web.now)
  }

  lemma ChosenIsFound(keys: KeySet, kid: string)
    ensures FindKey(keys, kid).Some? ==> Chosen(keys, kid, FindKey(keys, kid).value)
    ensures FindKey(keys, kid).None? ==> forall k :: !Chosen(keys, kid, k)
    ensures forall k :: Chosen(keys, kid, k) ==> FindKey(keys, kid) == Some(k)
  {
    forall k
      ensures FindKey(keys, kid) == Some(k) <==> Chosen(keys, kid, k)
    {
      FindsChosen(keys, kid, k);
    }
  }

  /** The key that verifyMachineJWT settles on, if any. */
  function KeyFor(lib: Library, cache: Cache, id: Uuid, p: Provider, web: Web, kid: string): Option<Key> {
    var known := Known(lib, cache, id, p, web);
    if known.None? then None
    else if FindKey(known.value, kid).Some? then FindKey(known.value, kid)
    else if KeysFrom(lib, p, web).Some? then FindKey(KeysFrom(lib, p, web).value, kid)
    else None
  }

  lemma KeyForIsSupplied(lib: Library, cache: Cache, id: Uuid, p: Provider, web: Web, kid: string, key: Key)
    ensures KeyFor(lib, cache, id, p, web, kid) == Some(key) <==> Supplies(lib, cache, id, p, web, kid, key)
  {
    var known := Known(lib, cache, id, p, web);
    if known.Some? {
      ChosenIsFound(known.value, kid);
      if KeysFrom(lib, p, web).Some? {
        ChosenIsFound(KeysFrom(lib, p, web).value, kid);
      }
    }
  }

  lemma FitsMeans(lib: Library, p: Provider, token: Token, key: Key, now: int)
    ensures Fits(lib, p, token, key, now) <==> token.opens(key) && Suits(lib, p, token.claims, now)
  {
    AudienceMeans(Get(token.claims, "aud"), p.audiences);
  }

  /** verifyMachineJWT accepts a token exactly when it is genuine. */
  lemma VerifiedIsGenuine(lib: Library, cache: Cache, id: Uuid, p: Provider, token: Token, web: Web)
    ensures Verify(lib, cache, id, p, token, web).ok <==> Genuine(lib, cache, id, p, token, web)
  {
    VerifyMeans(lib, cache, id, p, token, web);
    var found := KeyFor(lib, cache, id, p, web, token.kid);
    forall key
      ensures found == Some(key) <==> Supplies(lib, cache, id, p, web, token.kid, key)
    {
      KeyForIsSupplied(lib, cache, id, p, web, token.kid, key);
    }
    if found.Some? {
      FitsMeans(lib, p, token, found.value, web.now);
    }
  }

  // ---- machines ----------------------------------------------------------------------

  ghost predicate StartsWith(s: string, prefix: string) {
    exists rest :: s == prefix + rest
  }

  lemma PrefixMeans(s: string, prefix: string)
    ensures HasPrefix(s, prefix) <==> StartsWith(s, prefix)
  {
    if HasPrefix(s, prefix) {
      assert s == prefix + s[|prefix|..];
    }
    if rest :| s == prefix + rest {
      assert s[..|prefix|] == prefix;
    }
  }

  /** The claims meet a condition: the claim is there, and its text is the value, starts with it, or is
      one of a list of values. */
  ghost predicate Meets(c: Condition, claims: ClaimSet) {
    c.claim in claims
    && match c.op
       case "eq" => c.value == Text(ClaimString(claims[c.claim]))
       case "prefix" => c.value.Text? && StartsWith(ClaimString(claims[c.claim]), c.value.text)
       case "in" => StringList(c.value).Some? && ClaimString(claims[c.claim]) in StringList(c.value).value
       case _ => false
  }

  lemma MatchingMeans(c: Condition, claims: ClaimSet)
    ensures ConditionMatches(c, claims) <==> Meets(c, claims)
  {
    if c.claim in claims && c.value.Text? {
      PrefixMeans(ClaimString(claims[c.claim]), c.value.text);
    }
  }

  /** The machine's subject, where it has one, is the token's; so for its prefix and its conditions. */
  ghost predicate Recognises(m: Machine, claims: ClaimSet) {
    var sub := ClaimString(Get(claims, "sub"));
    (m.subject == "" || m.subject == sub) && (m.subjectPrefix == "" || StartsWith(sub, m.subjectPrefix))
    && forall c :: c in m.claims ==> Meets(c, claims)
  }

  lemma MatchesRecognises(m: Machine, claims: ClaimSet)
    ensures MachineMatches(m, claims) <==> m.provider.Some? && Recognises(m, claims)
  {
    PrefixMeans(ClaimString(Get(claims, "sub")), m.subjectPrefix);
    forall c
      ensures ConditionMatches(c, claims) <==> Meets(c, claims)
    {
      MatchingMeans(c, claims);
    }
    assert AllMatch(m.claims, claims) <==> forall c :: c in m.claims ==> ConditionMatches(c, claims) by {
      assert forall i :: 0 <= i < |m.claims| ==> m.claims[i] in m.claims;
    }
  }

  predicate Enabled(c: Config, pool: Uuid) {
    pool in c.pools && c.pools[pool]
  }

  /** The provider is enabled in an enabled pool, its issuer is the token's, and the token is genuine
      under it. */
  ghost predicate Vouches(lib: Library, c: Config, cache: Cache, token: Token, web: Web, p: Uuid) {
    p in c.providers && c.providers[p].enabled && Enabled(c, c.providers[p].pool)
    && token.decodes && Get(token.claims, "iss").Text? && c.providers[p].issuer != ""
    && Trim(Get(token.claims, "iss").text) == c.providers[p].issuer
    && Genuine(lib, cache, p, c.providers[p], token, web)
  }

  /** The machine is enabled in an enabled pool, its provider vouches for the token, and it recognises
      the token's claims. */
  ghost predicate Accepted(lib: Library, c: Config, cache: Cache, token: Token, web: Web, m: Uuid) {
    m in c.machines && c.machines[m].enabled && Enabled(c, c.machines[m].pool)
    && c.machines[m].provider.Some? && Vouches(lib, c, cache, token, web, c.machines[m].provider.value)
    && Recognises(c.machines[m], token.claims)
  }

  lemma CandidateIsAccepted(lib: Library, c: Config, cache: Cache, token: Token, web: Web, m: Uuid)
    ensures IsCandidate(lib, c, cache, token, web, m) <==> Accepted(lib, c, cache, token, web, m)
  {
    if m in c.machines && c.machines[m].provider.Some? {
      MatchesRecognises(c.machines[m], token.claims);
      var p := c.machines[m].provider.value;
      if p in c.providers {
        VerifiedIsGenuine(lib, cache, p, c.providers[p], token, web);
      }
    }
  }

  ghost predicate OnlyAccepted(lib: Library, c: Config, cache: Cache, token: Token, web: Web, m: Uuid) {
    forall x :: Accepted(lib, c, cache, token, web, x) <==> x == m
  }

  /** AuthenticateJWT returns a machine exactly when it is the only one accepted. */
  lemma OwnerIsOnlyAccepted(lib: Library, c: Config, cache: Cache, token: Token, web: Web)
    ensures forall m: Uuid :: Owner(lib, c, cache, token, web) == Some(m) <==> OnlyAccepted(lib, c, cache, token, web, m)
  {
    forall x
      ensures x in Candidates(lib, c, cache, token, web) <==> Accepted(lib, c, cache, token, web, x)
    {
      CandidateIsAccepted(lib, c, cache, token, web, x);
    }
    forall m: Uuid
      ensures Candidates(lib, c, cache, token, web) == {m} <==> OnlyAccepted(lib, c, cache, token, web, m)
    {
      if OnlyAccepted(lib, c, cache, token, web, m) {
        assert forall x :: x in Candidates(lib, c, cache, token, web) <==> x in {m};
      }
    }
  }

  /** A token that no key opens is nobody's. */
  lemma ForgeriesAreNobodys(lib: Library, c: Config, cache: Cache, token: Token, web: Web)
    requires forall key :: !token.opens(key)
    ensures Owner(lib, c, cache, token, web) == None
  {
    OwnerIsOnlyAccepted(lib, c, cache, token, web);
    forall m: Uuid
      ensures !OnlyAccepted(lib, c, cache, token, web, m)
    {
      assert !Accepted(lib, c, cache, token, web, m);
    }
  }
}
