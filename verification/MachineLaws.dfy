/** What the calls on providers and machines write, said in terms of the tables and the request alone. */
module MachineLaws {
  import opened Common
  import opened Claims
  import opened Machines
  import opened MachineCalls
  import opened TokenLaws

  // ---- providers ---------------------------------------------------------------------

  ghost predicate ValidText(lib: Library, t: ProviderText) {
    Trim(t.name) != "" && lib.httpsUrl(t.issuer).Some?
    && (exists i :: 0 <= i < |t.audiences| && Trim(t.audiences[i]) != "")
    && match t.mode
       case None => false
       case Some(Discovery) => true
       case Some(Uri) => lib.httpsUrl(t.jwksUri).Some?
       case Some(Static) => lib.decode(t.jwks).Some? && lib.decode(t.jwks).value != []
  }

  /** The row has the text's trimmed name, its URLs in normal form, its audiences, and only what its mode
      needs: a URI or a document. */
  ghost predicate WrittenAs(lib: Library, pool: Uuid, t: ProviderText, enabled: bool, p: Provider) {
    p.pool == pool && p.enabled == enabled && p.name == Trim(t.name) && Some(p.issuer) == lib.httpsUrl(t.issuer)
    && t.mode == Some(p.mode)
    && (forall a :: a in p.audiences <==> a != "" && Machines.Names(t.audiences, a))
    && (if p.mode == Uri then Some(p.jwksUri) == lib.httpsUrl(t.jwksUri) else p.jwksUri == "")
    && p.jwks == (if p.mode == Static then t.jwks else "")
  }

  lemma SomeAudience(audiences: seq<string>)
    ensures CleanAudiences(audiences, {}) != [] <==> exists i :: 0 <= i < |audiences| && Trim(audiences[i]) != ""
  {
    CleanAudiencesAre(audiences, {});
    var clean := CleanAudiences(audiences, {});
    if clean != [] {
      assert clean[0] in clean && Machines.Names(audiences, clean[0]);
    }
    if i :| 0 <= i < |audiences| && Trim(audiences[i]) != "" {
      assert Machines.Names(audiences, Trim(audiences[i]));
    }
  }

  lemma AcceptedTexts(lib: Library, pool: Uuid, t: ProviderText, enabled: bool)
    ensures NormalizeProvider(lib, pool, t, enabled).Ok? <==> ValidText(lib, t)
  {
    SomeAudience(t.audiences);
  }

  lemma WrittenTexts(lib: Library, pool: Uuid, t: ProviderText, enabled: bool)
    requires NormalizeProvider(lib, pool, t, enabled).Ok?
    ensures WrittenAs(lib, pool, t, enabled, NormalizeProvider(lib, pool, t, enabled).value)
  {
    assert NormalizeProvider(lib, pool, t, enabled).value.audiences == CleanAudiences(t.audiences, {});
    CleanAudiencesAre(t.audiences, {});
  }

  /** A provider's text is accepted exactly when it is valid, and written as said. */
  lemma ProviderNormalizes(lib: Library, pool: Uuid, t: ProviderText, enabled: bool)
    ensures NormalizeProvider(lib, pool, t, enabled).Ok? <==> ValidText(lib, t)
    ensures NormalizeProvider(lib, pool, t, enabled).Ok? ==>
              WrittenAs(lib, pool, t, enabled, NormalizeProvider(lib, pool, t, enabled).value)
  {
    AcceptedTexts(lib, pool, t, enabled);
    if NormalizeProvider(lib, pool, t, enabled).Ok? {
      WrittenTexts(lib, pool, t, enabled);
    }
  }

  /** Nobody else in the pool has the name or the issuer. */
  ghost predicate FreeInPool(c: Config, pool: Uuid, self: Option<Uuid>, name: string, issuer: string) {
    forall o :: o in c.providers && Some(o) != self && c.providers[o].pool == pool ==>
      c.providers[o].name != name && c.providers[o].issuer != issuer
  }

  /** A provider is created exactly for a valid text in an existing pool, under a name and an issuer that
      are free there; it is enabled unless the request says otherwise. */
  lemma ProviderCreated(lib: Library, c: Config, pool: Uuid, t: ProviderText, enabled: Option<bool>)
    ensures var p := NewProvider(lib, c, pool, t, enabled);
            (p.Some? <==>
              pool in c.pools && ValidText(lib, t) && FreeInPool(c, pool, None, Trim(t.name), lib.httpsUrl(t.issuer).value))
            && (p.Some? ==> WrittenAs(lib, pool, t, if enabled == Some(false) then false else true, p.value))
  {
    ProviderNormalizes(lib, pool, t, Or(enabled, true));
  }

  /** Each field is the given one where one is given, and the stored one otherwise. */
  predicate TextFrom(p: Provider, change: ProviderChange, t: ProviderText) {
    t.name == (match change.name case None => p.name case Some(v) => v)
    && t.issuer == (match change.issuer case None => p.issuer case Some(v) => v)
    && t.audiences == (match change.audiences case None => p.audiences case Some(v) => v)
    && t.mode == (match change.mode case None => Some(p.mode) case Some(v) => v)
    && t.jwksUri == (match change.jwksUri case None => p.jwksUri case Some(v) => v)
    && t.jwks == (match change.jwks case None => p.jwks case Some(v) => v)
  }

  lemma MergedIs(p: Provider, change: ProviderChange, t: ProviderText)
    requires TextFrom(p, change, t)
    ensures Merged(p, change) == t
  {
  }

  lemma UniqueMeansFree(c: Config, pool: Uuid, self: Option<Uuid>, p: Provider)
    requires p.pool == pool
    ensures ProviderUnique(c.providers, p, self) <==> FreeInPool(c, pool, self, p.name, p.issuer)
  {
  }

  /** A provider is updated exactly when it is one of the pool's, the text of given and stored fields is
      valid, and its name and issuer are free for it; it is written as that text says. */
  lemma ProviderUpdated(lib: Library, c: Config, pool: Uuid, id: Uuid, change: ProviderChange, t: ProviderText)
    requires id in c.providers && TextFrom(c.providers[id], change, t)
    ensures var p := NextProvider(lib, c, pool, id, change);
            (p.Some? <==>
              pool in c.pools && c.providers[id].pool == pool && ValidText(lib, t)
              && FreeInPool(c, pool, Some(id), Trim(t.name), lib.httpsUrl(t.issuer).value))
            && (p.Some? ==>
                  WrittenAs(lib, pool, t, match change.enabled case None => c.providers[id].enabled case Some(v) => v, p.value))
  {
    MergedIs(c.providers[id], change, t);
    var enabled := match change.enabled case None => c.providers[id].enabled case Some(v) => v;
    ProviderNormalizes(lib, pool, t, enabled);
    if NormalizeProvider(lib, pool, t, enabled).Ok? {
      UniqueMeansFree(c, pool, Some(id), NormalizeProvider(lib, pool, t, enabled).value);
    }
  }

  // ---- machines ----------------------------------------------------------------------

  ghost predicate ValidMachine(c: Config, pool: Uuid, t: MachineText) {
    Trim(t.name) != "" && (forall i :: 0 <= i < |t.claims| ==> Normalize(t.claims[i]).Ok?)
    && (t.provider.Some? ==>
          t.provider.value in c.providers && c.providers[t.provider.value].pool == pool
          && (Trim(t.subject) != "" || Trim(t.subjectPrefix) != "" || t.claims != []))
  }

  /** The machine has the text's trimmed fields, and the constraints only along with a provider. */
  ghost predicate BuiltFrom(pool: Uuid, t: MachineText, m: Machine) {
    m.pool == pool && m.name == Trim(t.name) && m.description == Trim(t.description) && m.enabled == t.enabled
    && m.provider == t.provider
    && m.subject == (if t.provider.Some? then Trim(t.subject) else "")
    && m.subjectPrefix == (if t.provider.Some? then Trim(t.subjectPrefix) else "")
    && (if t.provider.None? then m.claims == []
        else |m.claims| == |t.claims| && forall i :: 0 <= i < |m.claims| ==> Normalize(t.claims[i]) == Ok(m.claims[i]))
  }

  /** buildMachine accepts exactly the valid texts, and builds what they say. */
  lemma MachineBuilds(c: Config, pool: Uuid, t: MachineText)
    ensures Built(c.providers, pool, t).Ok? <==> ValidMachine(c, pool, t)
    ensures Built(c.providers, pool, t).Ok? ==> BuiltFrom(pool, t, Built(c.providers, pool, t).value)
  {
    AllSucceedIff(t.claims);
    if NormalizeAll(t.claims).Ok? {
      forall i | 0 <= i < |t.claims|
        ensures Normalize(t.claims[i]) == Ok(NormalizeAll(t.claims).value[i])
      {
        NormalizeAllAt(t.claims, i);
      }
    }
  }

  /** What such a machine recognises: a subject equal to the trimmed one where that is not blank, beginning
      with the trimmed prefix where that is not blank, and claims that meet every condition given. */
  lemma BuiltRecognises(pool: Uuid, t: MachineText, m: Machine, claims: ClaimSet)
    requires BuiltFrom(pool, t, m) && t.provider.Some?
    requires forall i :: 0 <= i < |t.claims| ==> Normalize(t.claims[i]).Ok?
    ensures var sub := ClaimString(Get(claims, "sub"));
            MachineMatches(AsStored(m), claims) <==>
              (Trim(t.subject) == "" || sub == Trim(t.subject))
              && (Trim(t.subjectPrefix) == "" || StartsWith(sub, Trim(t.subjectPrefix)))
              && forall i :: 0 <= i < |t.claims| ==> Meets(Normalize(t.claims[i]).value, claims)
  {
    StoredMachineMatchesAlike(m, claims);
    MatchesRecognises(m, claims);
    assert (forall c :: c in m.claims ==> Meets(c, claims))
      <==> forall i :: 0 <= i < |t.claims| ==> Meets(Normalize(t.claims[i]).value, claims) by {
      assert forall i :: 0 <= i < |t.claims| ==> m.claims[i] == Normalize(t.claims[i]).value && m.claims[i] in m.claims;
    }
  }

  ghost predicate NameFreeInPool(c: Config, pool: Uuid, self: Option<Uuid>, name: string) {
    forall o :: o in c.machines && Some(o) != self && c.machines[o].pool == pool ==> c.machines[o].name != name
  }

  /** The stored row of a machine built from a text: lists of strings come back untyped. */
  ghost predicate RowFrom(pool: Uuid, t: MachineText, row: Machine) {
    exists m :: BuiltFrom(pool, t, m) && row == m.(claims := row.claims)
      && |row.claims| == |m.claims| && forall i :: 0 <= i < |m.claims| ==> row.claims[i] == Stored(m.claims[i])
  }

  lemma BuiltIsRow(pool: Uuid, t: MachineText, m: Machine)
    requires BuiltFrom(pool, t, m)
    ensures RowFrom(pool, t, AsStored(m))
  {
  }

  /** A machine is created exactly for a valid text in an existing pool under a free name; the row is
      what the text says. */
  lemma MachineCreated(c: Config, pool: Uuid, t: MachineText)
    ensures var row := NewMachine(c, pool, t);
            (row.Some? <==> pool in c.pools && ValidMachine(c, pool, t) && NameFreeInPool(c, pool, None, Trim(t.name)))
            && (row.Some? ==> RowFrom(pool, t, row.value))
  {
    MachineBuilds(c, pool, t);
    if Built(c.providers, pool, t).Ok? {
      BuiltIsRow(pool, t, Built(c.providers, pool, t).value);
    }
  }

  /** Each field is the given one where one is given, and the stored one otherwise; the provider can also
      be cleared. */
  predicate MachineTextFrom(m: Machine, change: MachineChange, t: MachineText) {
    t.name == (match change.name case None => m.name case Some(v) => v)
    && t.description == (match change.description case None => m.description case Some(v) => v)
    && t.enabled == (match change.enabled case None => m.enabled case Some(v) => v)
    && t.provider == (if change.clearProvider then None else match change.provider case None => m.provider case Some(v) => v)
    && t.subject == (match change.subject case None => m.subject case Some(v) => v)
    && t.subjectPrefix == (match change.subjectPrefix case None => m.subjectPrefix case Some(v) => v)
    && t.claims == (match change.claims case None => m.claims case Some(v) => v)
  }

  /** A machine is updated exactly when it is one of the pool's, the text of given and stored fields is
      valid, and its name is free for it; the row is what that text says. */
  lemma MachineUpdated(c: Config, pool: Uuid, id: Uuid, change: MachineChange, t: MachineText)
    requires id in c.machines && MachineTextFrom(c.machines[id], change, t)
    ensures var row := NextMachine(c, pool, id, change);
            (row.Some? <==>
              pool in c.pools && c.machines[id].pool == pool && ValidMachine(c, pool, t)
              && NameFreeInPool(c, pool, Some(id), Trim(t.name)))
            && (row.Some? ==> RowFrom(pool, t, row.value))
  {
    assert MergedMachine(c.machines[id], change) == t;
    MachineBuilds(c, pool, t);
    if Built(c.providers, pool, t).Ok? {
      BuiltIsRow(pool, t, Built(c.providers, pool, t).value);
    }
  }
}
