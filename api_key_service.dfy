/** ApiKeyService: issuing an API key, the update of a key's settings, and
    the shaping of the random key string.  The 32 random bytes and their
    Base64 text come from the platform and are a parameter here. */
module ApiKeyService {
  import opened Common
  import opened Entities
  import opened Data

  datatype CreateApiKeyDto = CreateApiKeyDto(
    name: string,
    description: Option<string>,
    expiresAt: Instant)

  /** The request body of UpdateApiKeyAsync.  `Name` is declared non-null,
      but a request can still carry a null, which the service tests for. */
  datatype ApiKeyDto = ApiKeyDto(
    id: int,
    name: Option<string>,
    description: Option<string>,
    isActive: bool,
    expiresAt: Instant,
    createdAt: Instant,
    lastUsedAt: Option<Instant>)

  // ---------------------------------------------------------------------------
  // Key shaping

  /** `string.Replace(from, to)` for one character each. */
  function ReplaceChar(s: string, from: char, to: char): (r: string)
    ensures |r| == |s|
    ensures forall i :: 0 <= i < |s| && s[i] != from ==> r[i] == s[i]
    ensures forall i :: 0 <= i < |s| && s[i] == from ==> r[i] == to
    ensures from != to ==> from !in r
  {
    if s == [] then []
    else [if s[0] == from then to else s[0]] + ReplaceChar(s[1..], from, to)
  }

  /** `string.TrimEnd(c)`: the longest prefix not ending in `c` whose
      remainder is all `c`. */
  function TrimEnd(s: string, c: char): (r: string)
    ensures |r| <= |s| && r == s[..|r|]
    ensures |r| > 0 ==> r[|r| - 1] != c
    ensures forall i :: |r| <= i < |s| ==> s[i] == c
  {
    if |s| > 0 && s[|s| - 1] == c then TrimEnd(s[..|s| - 1], c) else s
  }

  const KeyPrefix: string := "hb_"

  /** The URL-safe Base64 alphabet: '+' becomes '-' and '/' becomes '_'. */
  function UrlSafe(c: char): char {
    if c == '+' then '-' else if c == '/' then '_' else c
  }

  /** The Base64 text in the URL-safe alphabet: `Replace("+", "-")` then
      `Replace("/", "_")`. */
  function UrlSafeText(base64: string): (safe: string)
    ensures |safe| == |base64|
    ensures forall i :: 0 <= i < |base64| ==> safe[i] == UrlSafe(base64[i])
  {
    var dashed := ReplaceChar(base64, '+', '-');
    var safe := ReplaceChar(dashed, '/', '_');
    assert forall i :: 0 <= i < |base64| ==> safe[i] == UrlSafe(base64[i]) by {
      forall i | 0 <= i < |base64|
        ensures safe[i] == UrlSafe(base64[i])
      {
        assert dashed[i] == if base64[i] == '+' then '-' else base64[i];
      }
    }
    safe
  }

  /** `body` is the URL-safe form of `base64` with its trailing '='
      padding dropped: position by position the URL-safe character, then
      only '=' left over, and no '+', '/' or final '=' in the body. */
  predicate IsKeyBody(body: string, base64: string) {
    && |body| <= |base64|
    && (forall i :: 0 <= i < |body| ==> body[i] == UrlSafe(base64[i]))
    && (forall i :: |body| <= i < |base64| ==> base64[i] == '=')
    && (|body| > 0 ==> body[|body| - 1] != '=')
    && '+' !in body && '/' !in body
  }

  /** The key body: the URL-safe text up to its trailing '=' padding. */
  function KeyBody(base64: string): (body: string)
    ensures IsKeyBody(body, base64)
  {
    var safe := UrlSafeText(base64);
    var body := TrimEnd(safe, '=');
    assert forall i :: 0 <= i < |body| ==> body[i] == safe[i];
    assert forall i :: 0 <= i < |body| ==> body[i] != '+' && body[i] != '/';
    body
  }

  /** GenerateApiKeyAsync on the Base64 text of the random bytes: "hb_",
      then each character of the text in the URL-safe alphabet, up to the
      trailing '=' padding, which is dropped. */
  function GenerateApiKey(base64: string): (key: string)
    ensures |KeyPrefix| <= |key| && key[..|KeyPrefix|] == KeyPrefix
    ensures IsKeyBody(key[|KeyPrefix|..], base64)
  {
    var key := KeyPrefix + KeyBody(base64);
    assert key[|KeyPrefix|..] == KeyBody(base64);
    key
  }

  /** The Base64 text of 32 bytes is 44 characters ending in exactly one
      '=', so every generated key is 46 characters long. */
  lemma GeneratedKeyLength(base64: string)
    requires |base64| == 44 && base64[43] == '=' && base64[42] != '='
    ensures |GenerateApiKey(base64)| == 46
  {
    var body := GenerateApiKey(base64)[|KeyPrefix|..];
    assert |body| >= 43;
  }

  // ---------------------------------------------------------------------------
  // Create and update

  /** CreateApiKeyAsync: a new active key with the request's name,
      description and expiry, stored after every existing row. */
  method CreateApiKey(db: Database, dto: CreateApiKeyDto, base64: string, now: Instant) returns (created: ApiKey)
    requires db.Valid()
    modifies db`apiKeys, db`nextApiKeyId
    ensures db.Valid()
    ensures created == ApiKey(old(db.nextApiKeyId), GenerateApiKey(base64), dto.name, dto.description,
                              true, dto.expiresAt, now, None)
    ensures db.apiKeys == old(db.apiKeys) + [created]
  {
    var key := GenerateApiKey(base64);
    var apiKey := ApiKey(0, key, dto.name, dto.description, true, dto.expiresAt, 0, None);
    // ApiKeyRepository.CreateAsync stamps CreatedAt and takes the next id
    created := apiKey.(id := db.nextApiKeyId, createdAt := now);
    db.apiKeys := db.apiKeys + [created];
    db.nextApiKeyId := db.nextApiKeyId + 1;
  }

  /** The row `FindAsync(id)` returns: in a table with distinct ids, the one
      carrying `id`. */
  function ApiKeyIndex(keys: seq<ApiKey>, id: int): (r: Option<nat>)
    ensures r.Some? ==> r.value < |keys| && keys[r.value].id == id
    ensures r.None? ==> forall j :: 0 <= j < |keys| ==> keys[j].id != id
  {
    FirstIndex(keys, (k: ApiKey) => k.id == id)
  }

  /** The update of UpdateApiKeyAsync: name and description only when
      neither null nor empty, the active flag and the expiry always.  The key
      string, the id and the timestamps are never touched. */
  function PatchApiKey(k: ApiKey, dto: ApiKeyDto): (p: ApiKey)
    ensures p.id == k.id && p.key == k.key
    ensures p.createdAt == k.createdAt && p.lastUsedAt == k.lastUsedAt
    ensures IsNullOrEmpty(dto.name) ==> p.name == k.name
    ensures !IsNullOrEmpty(dto.name) ==> p.name == dto.name.value
    ensures IsNullOrEmpty(dto.description) ==> p.description == k.description
    ensures !IsNullOrEmpty(dto.description) ==> p.description == dto.description
    ensures p.isActive == dto.isActive && p.expiresAt == dto.expiresAt
  {
    k.(name := PickString(dto.name, k.name),
       description := PickNullableString(dto.description, k.description),
       isActive := dto.isActive,
       expiresAt := dto.expiresAt)
  }

  /** Applying the same update twice gives the key of applying it once. */
  lemma PatchApiKeyIdempotent(k: ApiKey, dto: ApiKeyDto)
    ensures PatchApiKey(PatchApiKey(k, dto), dto) == PatchApiKey(k, dto)
  {
  }

  /** The request's id, creation time and last-use time are ignored. */
  lemma PatchIgnoresReadOnlyFields(k: ApiKey, dto: ApiKeyDto, id: int, createdAt: Instant, lastUsedAt: Option<Instant>)
    ensures PatchApiKey(k, dto.(id := id, createdAt := createdAt, lastUsedAt := lastUsedAt)) == PatchApiKey(k, dto)
  {
  }

  /** UpdateApiKeyAsync: `None` and no write for an unknown id; otherwise
      the patched key replaces its row. */
  method UpdateApiKey(db: Database, id: int, dto: ApiKeyDto) returns (r: Option<ApiKey>)
    requires db.Valid()
    modifies db`apiKeys
    ensures db.Valid()
    ensures r.None? <==> ApiKeyIndex(old(db.apiKeys), id).None?
    ensures r.None? ==> db.apiKeys == old(db.apiKeys)
    ensures r.Some? ==> && ApiKeyIndex(old(db.apiKeys), id).Some?
                        && var i := ApiKeyIndex(old(db.apiKeys), id).value;
                           && r.value == PatchApiKey(old(db.apiKeys)[i], dto)
                           && db.apiKeys == old(db.apiKeys)[i := r.value]
  {
    var found := ApiKeyIndex(db.apiKeys, id);
    if found.None? {
      return None;
    }
    var i := found.value;
    var apiKey := db.apiKeys[i];

    if !IsNullOrEmpty(dto.name) {
      apiKey := apiKey.(name := dto.name.value);
    }
    if !IsNullOrEmpty(dto.description) {
      apiKey := apiKey.(description := dto.description);
    }
    apiKey := apiKey.(isActive := dto.isActive);
    apiKey := apiKey.(expiresAt := dto.expiresAt);
    assert apiKey == PatchApiKey(db.apiKeys[i], dto);

    db.apiKeys := db.apiKeys[i := apiKey];
    return Some(apiKey);
  }
}
