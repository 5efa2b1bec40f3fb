/** ApiKeyAuthenticationHandler: the ordered checks that turn an X-API-KEY
    header into an authenticated caller, and the last-use stamp written on
    success.  The header is a parameter, as is the clock. */
module ApiKeyAuthentication {
  import opened Common
  import opened Entities
  import opened Data
  import ApiKeyService

  /** The claims of the ticket: NameIdentifier (the key's id, which the
      handler renders with `ToString`), Name, and the "ApiKey" marker. */
  datatype Claims = Claims(nameIdentifier: int, name: string, apiKey: string)

  datatype AuthenticateResult = NoResult | Fail(message: string) | Authenticated(claims: Claims)

  /** `FirstOrDefault` of the header's values: null when the header is
      missing or carries no value. */
  function Presented(header: Option<seq<string>>): (p: Option<string>)
    ensures p.Some? <==> header.Some? && |header.value| > 0
    ensures p.Some? ==> p.value == header.value[0]
  {
    if header.None? || |header.value| == 0 then None else Some(header.value[0])
  }

  /** The row `FirstOrDefaultAsync(k => k.Key == apiKey)` returns for a
      presented key: the first one carrying that string. */
  function LookUp(keys: seq<ApiKey>, key: string): (r: Option<nat>)
    ensures r.Some? ==> r.value < |keys| && keys[r.value].key == key
    ensures r.Some? ==> forall j :: 0 <= j < r.value ==> keys[j].key != key
    ensures r.None? ==> forall j :: 0 <= j < |keys| ==> keys[j].key != key
  {
    FirstIndex(keys, (k: ApiKey) => k.key == key)
  }

  /** HandleAuthenticateAsync's decision: no header or a blank key means no
      result; then an unknown key, an inactive key and an expired key fail,
      in that order; a key expiring at this very instant still succeeds. */
  function Authenticate(keys: seq<ApiKey>, header: Option<seq<string>>, now: Instant): (r: AuthenticateResult)
    ensures r.NoResult? <==> IsNullOrWhiteSpace(Presented(header))
    ensures !IsNullOrWhiteSpace(Presented(header)) ==>
              var found := LookUp(keys, Presented(header).value);
              && (found.None? ==> r == Fail("Invalid API key"))
              && (found.Some? && !keys[found.value].isActive ==> r == Fail("API key is inactive"))
              && ((found.Some? && keys[found.value].isActive && keys[found.value].expiresAt < now)
                    ==> r == Fail("API key has expired"))
              && (r.Authenticated? <==> found.Some? && keys[found.value].isActive && now <= keys[found.value].expiresAt)
              && (r.Authenticated? ==> r.claims == Claims(keys[found.value].id, keys[found.value].name, "true"))
  {
    var apiKey := Presented(header);
    if IsNullOrWhiteSpace(apiKey) then NoResult
    else
      match LookUp(keys, apiKey.value)
      case None => Fail("Invalid API key")
      case Some(i) =>
        var entity := keys[i];
        if !entity.isActive then Fail("API key is inactive")
        else if entity.expiresAt < now then Fail("API key has expired")
        else Authenticated(Claims(entity.id, entity.name, "true"))
  }

  /** The row a successful authentication stamps. */
  function AuthenticatedRow(keys: seq<ApiKey>, header: Option<seq<string>>, now: Instant): (i: nat)
    requires Authenticate(keys, header, now).Authenticated?
    ensures i < |keys| && keys[i].key == Presented(header).value
    ensures Authenticate(keys, header, now).claims.nameIdentifier == keys[i].id
  {
    LookUp(keys, Presented(header).value).value
  }

  /** HandleAuthenticateAsync: decides as `Authenticate` and, only on success,
      stamps the key's LastUsedAt. */
  method HandleAuthenticate(db: Database, header: Option<seq<string>>, now: Instant) returns (r: AuthenticateResult)
    requires db.Valid()
    modifies db`apiKeys
    ensures db.Valid()
    ensures r == Authenticate(old(db.apiKeys), header, now)
    ensures r.Authenticated? ==> var i := AuthenticatedRow(old(db.apiKeys), header, now);
                           db.apiKeys == old(db.apiKeys)[i := old(db.apiKeys)[i].(lastUsedAt := Some(now))]
    ensures !r.Authenticated? ==> db.apiKeys == old(db.apiKeys)
  {
    if header.None? {
      return NoResult;
    }
    var apiKey := Presented(header);
    if IsNullOrWhiteSpace(apiKey) {
      return NoResult;
    }

    var found := LookUp(db.apiKeys, apiKey.value);
    if found.None? {
      return Fail("Invalid API key");
    }
    var i := found.value;
    if !db.apiKeys[i].isActive {
      return Fail("API key is inactive");
    }
    if db.apiKeys[i].expiresAt < now {
      return Fail("API key has expired");
    }

    var entity := db.apiKeys[i].(lastUsedAt := Some(now));
    db.apiKeys := db.apiKeys[i := entity];
    return Authenticated(Claims(entity.id, entity.name, "true"));
  }

  /** The last-use stamp never changes a later decision: authentication reads
      neither LastUsedAt nor anything the stamp writes. */
  lemma StampIsInvisible(keys: seq<ApiKey>, i: nat, stamp: Instant, header: Option<seq<string>>, now: Instant)
    requires i < |keys|
    ensures Authenticate(keys[i := keys[i].(lastUsedAt := Some(stamp))], header, now)
            == Authenticate(keys, header, now)
  {
    var stamped := keys[i := keys[i].(lastUsedAt := Some(stamp))];
    var apiKey := Presented(header);
    if !IsNullOrWhiteSpace(apiKey) {
      LookUpSameKeys(keys, stamped, apiKey.value);
    }
  }

  /** Two tables whose rows carry the same key strings select the same row. */
  lemma LookUpSameKeys(a: seq<ApiKey>, b: seq<ApiKey>, key: string)
    requires |a| == |b| && forall j :: 0 <= j < |a| ==> a[j].key == b[j].key
    ensures LookUp(a, key) == LookUp(b, key)
  {
  }

  /** A key that authenticates now also authenticated at every earlier
      instant: expiry is the only time-dependent check. */
  lemma EarlierStillAuthenticates(keys: seq<ApiKey>, header: Option<seq<string>>, now: Instant, earlier: Instant)
    requires Authenticate(keys, header, now).Authenticated? && earlier <= now
    ensures Authenticate(keys, header, earlier) == Authenticate(keys, header, now)
  {
  }

  /** A freshly issued key, presented in the header, authenticates as itself
      until it expires and fails as expired afterwards, provided no older row
      carries the same key string. */
  lemma IssuedKeyAuthenticates(keys: seq<ApiKey>, created: ApiKey, base64: string, now: Instant)
    requires created.key == ApiKeyService.GenerateApiKey(base64) && created.isActive
    requires forall j :: 0 <= j < |keys| ==> keys[j].key != created.key
    ensures now <= created.expiresAt ==>
              Authenticate(keys + [created], Some([created.key]), now)
              == Authenticated(Claims(created.id, created.name, "true"))
    ensures created.expiresAt < now ==>
              Authenticate(keys + [created], Some([created.key]), now) == Fail("API key has expired")
  {
    var all := keys + [created];
    assert created.key[0] == 'h';
    assert !IsNullOrWhiteSpace(Presented(Some([created.key])));
    var found := LookUp(all, created.key);
    assert all[|keys|].key == created.key;
    assert found.Some?;
    assert found.value == |keys|;
  }

  /** Deactivating a key through UpdateApiKeyAsync locks it out at once:
      presenting it fails as inactive, provided no older row carries the same
      key string. */
  lemma DeactivatedKeyFails(keys: seq<ApiKey>, i: nat, dto: ApiKeyService.ApiKeyDto, now: Instant)
    requires i < |keys| && !dto.isActive
    requires !IsNullOrWhiteSpace(Some(keys[i].key))
    requires forall j :: 0 <= j < i ==> keys[j].key != keys[i].key
    ensures Authenticate(keys[i := ApiKeyService.PatchApiKey(keys[i], dto)], Some([keys[i].key]), now)
            == Fail("API key is inactive")
  {
    var updated := keys[i := ApiKeyService.PatchApiKey(keys[i], dto)];
    LookUpSameKeys(keys, updated, keys[i].key);
    var found := LookUp(keys, keys[i].key);
    assert found.Some?;
    assert found.value == i;
  }
}
