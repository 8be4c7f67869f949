# Secrets client library, modelled in Dafny

This project models the core of a small Java library that reads static secrets for an
application. Three providers share one interface:

- **`VaultAppRoleKvV2Client`** reads one field of a KV version 2 secret from Vault or OpenBao.
  - It logs in with AppRole (a POST of `role_id` and `secret_id`) and keeps the client token.
  - When a read is refused with a message containing `HTTP 403`, it retries once with a fresh login.
  - It caches values in an `LruExpiringCache`: a bounded map with least-recently-used eviction
    and a per-entry expiry time.
- **`EnvSecretsClient`** reads an environment variable whose name is derived from the path and the key.
- **`PropertiesFileSecretsClient`** reads a `<path>.<key>` entry of a loaded properties file.

`SecretsClientFactory` picks one provider from the `secrets.provider` setting. `Config` supplies
the required, optional and numeric settings, and `UrlUtil` builds the KV v2 read URL.

The modules, one file each:

| file | module | what it models |
|---|---|---|
| `wrappers.dfy` | `Wrappers` | `Option` (a nullable reference) and `Result` (a value or a thrown exception) |
| `secrets.dfy` | `Secrets` | `SecretCapability`, and the exceptions the library throws, with their messages |
| `text.dfy` | `Text` | Java `String` operations the code relies on: `trim`, `contains`, `replace`, ASCII case mapping, decimal printing |
| `json.dfy` | `Json` | the Jackson tree the client reads: `path`, `asText(null)`, `writeValueAsString` |
| `form_encoding.dfy` | `FormEncoding` | `URLEncoder.encode(s, "UTF-8")`, plus percent- and UTF-8 decoding as its reference inverse |
| `config.dfy` | `Config` | `Config.req`, `get`, `getInt`, `getLong` over a loaded properties map |
| `urlutil.dfy` | `UrlUtil` | `trimTrailingSlash`, `urlEncode`, `String.split("/")` and `encodePath` (a loop, proved against a function) |
| `lru_cache.dfy` | `LruCache` | the cache as a pure `State` (keys in recency order plus entries), and the class `LruExpiringCache` proved against it |
| `vault_client.dfy` | `VaultClient` | settings, URLs, the login payload, reply classification, and the token/retry/cache protocol as functions; the class `VaultAppRoleKvV2Client` performs those steps on its fields |
| `env_secrets.dfy` | `EnvSecrets` | the environment-variable name and lookup |
| `properties_file_secrets.dfy` | `PropertiesFileSecrets` | the `<path>.<key>` lookup, and the class whose `close` clears its map |
| `factory.dfy` | `Factory` | `SecretsClientFactory.create` |

How the environment is handled:

- **The network** is a `Server`. It is a function from the requests the client has already sent,
  plus the request it sends now, to a reply: a status code, the body, and what
  `ObjectMapper.readTree` makes of that body. A reply can also be a transport failure. Because the
  server sees the history, a backend whose first token expires can be written down, and the
  renewal can be proved end to end.
- **The clock** is passed in as arguments. `getRequired` reads the clock twice: once for the cache
  check (`checkedAt`) and once for the store (`storedAt`).
- **The process environment and loaded files** are maps.

Java `long` and `int` ranges are kept explicit in three places:

- the bounds `parseInt` and `parseLong` accept;
- the 64-bit wrap of the TTL multiplication. This is the one finding below; the rest of the model uses the TTL the multiplication was meant to give;
- the 64-bit wrap of the expiry `storedAt + cacheTtlMillis`, kept as the code computes it. For TTLs close to `Long.MAX_VALUE` milliseconds the sum wraps to a time before `storedAt`, so the cached entry is expired from the start. The TTL of the finding is one such case: with the corrected TTL its product no longer wraps, but the expiry sum does.

## Model

All paths are under `src/main/java/com/ryan/vault/secrets/`.

| member | source | states |
|---|---|---|
| Secrets.KvOnly | src/main/java/com/ryan/vault/secrets/SecretCapability.java:7-9 | the capability set of every provider is exactly `{KV_READ}` |
| Text.TrimIsSlice | src/main/java/com/ryan/vault/secrets/Config.java:29 | `trim()` returns the slice left after removing a leading and a trailing run of characters up to U+0020; the result neither starts nor ends with one |
| Text.TrimIdempotent | src/main/java/com/ryan/vault/secrets/Config.java:29 | trimming a trimmed value changes nothing |
| Text.TrimEmptyIffBlank | src/main/java/com/ryan/vault/secrets/Config.java:26 | a string trims to "" exactly when every character of it is at most U+0020 |
| Text.ContainsIffOccurs | src/main/java/com/ryan/vault/secrets/providers/VaultAppRoleKvV2Client.java:78 | `contains(sub)` holds exactly when sub occurs at some index |
| Text.ContainsInfix | src/main/java/com/ryan/vault/secrets/providers/VaultAppRoleKvV2Client.java:78 | any string with sub in its middle contains sub |
| Text.Digits | src/main/java/com/ryan/vault/secrets/providers/VaultAppRoleKvV2Client.java:159 | the printed digits of a status code are ASCII digits with no leading zero |
| Text.DecimalOf403 | src/main/java/com/ryan/vault/secrets/providers/VaultAppRoleKvV2Client.java:159 | 403 prints as "403", and 4030..4039 print as "403" followed by one digit |
| Text.ReplaceChar | src/main/java/com/ryan/vault/secrets/providers/EnvSecretsClient.java:25-27 | after `replace(target, r)` with target not in r, target no longer occurs, and no new character appears except those of r |
| Text.ToUpper | src/main/java/com/ryan/vault/secrets/providers/EnvSecretsClient.java:28 | `toUpperCase()` keeps the length and maps each ASCII letter to upper case |
| Text.ToLower | src/main/java/com/ryan/vault/secrets/SecretsClientFactory.java:21 | `toLowerCase()` keeps the length and maps each ASCII letter to lower case |
| Text.ToLowerIdempotent | src/main/java/com/ryan/vault/secrets/SecretsClientFactory.java:21 | lower-casing twice is lower-casing once |
| Text.ToLowerOfLowerCase | src/main/java/com/ryan/vault/secrets/SecretsClientFactory.java:21 | a name with no capital letter is its own lower-case form |
| Json.Find | src/main/java/com/ryan/vault/secrets/providers/VaultAppRoleKvV2Client.java:163 | a member lookup finds a value exactly when some member has that name, and the value is that member's |
| Json.Path | src/main/java/com/ryan/vault/secrets/providers/VaultAppRoleKvV2Client.java:163 | `path(name)` is a real node exactly when the node is an object holding that member, and then it is the value of a member of that name; otherwise it is MissingNode |
| Json.AsText | src/main/java/com/ryan/vault/secrets/providers/VaultAppRoleKvV2Client.java:133 | `asText(null)` is null exactly for a missing or JSON-null node; it is the text of a string node, the decimal form of a number, "true" or "false" for a boolean, and "" for an array or an object |
| Json.EscapeAllPlain | src/main/java/com/ryan/vault/secrets/providers/VaultAppRoleKvV2Client.java:172 | text with no control character, quote or backslash is written unescaped |
| Json.QuotePlain | src/main/java/com/ryan/vault/secrets/providers/VaultAppRoleKvV2Client.java:172 | such text is written as a string literal by adding quotes only |
| FormEncoding.Utf8 | src/main/java/com/ryan/vault/secrets/UrlUtil.java:27 | each character becomes 1 to 4 UTF-8 bytes, and ASCII becomes its own byte |
| FormEncoding.HexValueOfDigit | src/main/java/com/ryan/vault/secrets/UrlUtil.java:27 | the upper-case hex digit written for a nibble reads back as that nibble |
| FormEncoding.DecodeOneOfUtf8 | src/main/java/com/ryan/vault/secrets/UrlUtil.java:27 | UTF-8 decoding reads back exactly the character whose bytes start the input, and its length |
| FormEncoding.Utf8RoundTrip | src/main/java/com/ryan/vault/secrets/UrlUtil.java:27 | decoding the UTF-8 bytes of any string gives the string back |
| FormEncoding.PercentDecodeOfPercentBytes | src/main/java/com/ryan/vault/secrets/UrlUtil.java:27 | percent-decoding reads bytes back out of their `%XX` triples |
| Config.Req | src/main/java/com/ryan/vault/secrets/Config.java:24-30 | fails with `IllegalArgumentException("Missing property: <key>")` exactly when the key is absent or blank after trim; otherwise returns the trimmed value |
| Config.ReqValueIsTrimmed | src/main/java/com/ryan/vault/secrets/Config.java:29 | a value returned by `req` is never empty, and has no blank at either end |
| Config.Get | src/main/java/com/ryan/vault/secrets/Config.java:32-35 | an absent key gives the default untouched; a present key gives its trimmed value, possibly "" |
| Config.ParseDecimal | src/main/java/com/ryan/vault/secrets/Config.java:37-47 | `parseInt`/`parseLong` succeed exactly on an optional sign, at least one digit, and a value inside the range; the value is the signed number; anything else throws `NumberFormatException("For input string: \"<s>\"")` |
| Config.DigitsValueOfDigits | src/main/java/com/ryan/vault/secrets/Config.java:40 | reading back printed digits gives the number |
| Config.ParseDecimalOfDecimal | src/main/java/com/ryan/vault/secrets/Config.java:37-47 | parsing the decimal text of any in-range number gives that number |
| Config.GetInt | src/main/java/com/ryan/vault/secrets/Config.java:37-41 | an absent or blank value gives the default; otherwise `Integer.parseInt` of the trimmed text, with its failure |
| Config.GetLong | src/main/java/com/ryan/vault/secrets/Config.java:43-47 | as `getInt`, with the `long` range |
| Config.GetIntOfDecimal | src/main/java/com/ryan/vault/secrets/Config.java:37-41 | an int written in decimal, with any blanks before it and any after it, reads back as itself |
| Config.GetLongOfDecimal | src/main/java/com/ryan/vault/secrets/Config.java:43-47 | a long written in decimal, with any blanks before it and any after it, reads back as itself |
| Config.TrimOfPadded | src/main/java/com/ryan/vault/secrets/Config.java:40 | `trim()` removes exactly the blanks before and after a value that neither starts nor ends with a blank, the two runs of blanks chosen independently |
| Config.ReadersSeeOnlyTheirKey | src/main/java/com/ryan/vault/secrets/Config.java:24-47 | `req`, `get`, `getInt` and `getLong` depend on their own key and nothing else in the map |
| UrlUtil.TrimTrailingSlash | src/main/java/com/ryan/vault/secrets/UrlUtil.java:8-11 | null stays null; one final '/' is removed when present; otherwise the string is unchanged |
| UrlUtil.TrimTrailingSlashOnce | src/main/java/com/ryan/vault/secrets/UrlUtil.java:10 | exactly one slash goes: `t + "/"` trims to t, so "a//" gives "a/" |
| UrlUtil.UrlEncodeByChar | src/main/java/com/ryan/vault/secrets/UrlUtil.java:27 | rewriting '+' to "%20" after form encoding equals encoding each character with a space as "%20" |
| UrlUtil.SpaceIsPercent20 | src/main/java/com/ryan/vault/secrets/UrlUtil.java:27 | a space in a segment is written "%20" |
| UrlUtil.UrlEncodeUnreserved | src/main/java/com/ryan/vault/secrets/UrlUtil.java:27 | a segment of only `[A-Za-z0-9.*_-]` is left as it is |
| UrlUtil.UrlEncodeIsEncoded | src/main/java/com/ryan/vault/secrets/UrlUtil.java:25-27 | every encoded segment consists of unreserved characters and `%XX` triples with upper-case hex |
| UrlUtil.EncodedHasNoSeparators | src/main/java/com/ryan/vault/secrets/UrlUtil.java:25-27 | such text holds no '/', '+' or space |
| UrlUtil.UrlDecodeOfUrlEncode | src/main/java/com/ryan/vault/secrets/UrlUtil.java:25-27 | percent-decoding then UTF-8 decoding of an encoded segment gives the segment back |
| UrlUtil.Pieces | src/main/java/com/ryan/vault/secrets/UrlUtil.java:16 | cutting at every '/' gives at least one piece, and no piece holds a '/' |
| UrlUtil.JoinPieces | src/main/java/com/ryan/vault/secrets/UrlUtil.java:16 | joining the pieces with '/' gives the string back |
| UrlUtil.PiecesOfJoin | src/main/java/com/ryan/vault/secrets/UrlUtil.java:16 | cutting a join of slash-free parts gives back the parts |
| UrlUtil.DropTrailingEmpty | src/main/java/com/ryan/vault/secrets/UrlUtil.java:16 | `split` drops a suffix of empty pieces and keeps a prefix ending in a non-empty piece |
| UrlUtil.JoinDropTrailingEmpty | src/main/java/com/ryan/vault/secrets/UrlUtil.java:16 | dropping the trailing empty pieces is dropping all the trailing slashes |
| UrlUtil.SplitNonEmpty | src/main/java/com/ryan/vault/secrets/UrlUtil.java:16 | for a non-empty path, `split("/")` is the pieces without the trailing empty ones |
| UrlUtil.EncodeAll | src/main/java/com/ryan/vault/secrets/UrlUtil.java:18-21 | each segment is encoded by `urlEncode`, position by position |
| UrlUtil.EncodedPath | src/main/java/com/ryan/vault/secrets/UrlUtil.java:15 | null or "" encodes to "" |
| UrlUtil.EncodePath | src/main/java/com/ryan/vault/secrets/UrlUtil.java:14-23 | the builder loop returns the encoded segments of `split("/")` with '/' between them |
| UrlUtil.EncodedSafePath | src/main/java/com/ryan/vault/secrets/UrlUtil.java:14-23 | a path of unreserved characters and '/' encodes to itself minus its trailing slashes: "a/b/" gives "a/b", a leading '/' is kept, and a path with no trailing '/' is unchanged |
| UrlUtil.PiecesUnreserved | src/main/java/com/ryan/vault/secrets/UrlUtil.java:16 | the pieces of such a path contain only unreserved characters |
| UrlUtil.EncodedPathSegments | src/main/java/com/ryan/vault/secrets/UrlUtil.java:14-27 | cutting the encoded path at its slashes gives exactly the encoded segments, and decoding each gives the original segment |
| LruCache.Remove | src/main/java/com/ryan/vault/secrets/providers/VaultAppRoleKvV2Client.java:259 | removing a key from the recency list keeps every other key, and shortens a duplicate-free list by one exactly when the key was in it |
| LruCache.GetAbsent | src/main/java/com/ryan/vault/secrets/providers/VaultAppRoleKvV2Client.java:256-257 | a get of an absent key returns null and changes nothing |
| LruCache.GetExpired | src/main/java/com/ryan/vault/secrets/providers/VaultAppRoleKvV2Client.java:258-261 | a get with now >= expiresAt returns null and removes exactly that key, keeping every other key in its place; a second get at any time also returns null and changes nothing |
| LruCache.GetLive | src/main/java/com/ryan/vault/secrets/providers/VaultAppRoleKvV2Client.java:255-263 | a get with now < expiresAt returns the stored value and moves the key to most recently used; the other keys keep their relative order, and no entry changes |
| LruCache.GetWellFormed | src/main/java/com/ryan/vault/secrets/providers/VaultAppRoleKvV2Client.java:255-263 | a get keeps the cache within capacity, with each key listed once |
| LruCache.PutStores | src/main/java/com/ryan/vault/secrets/providers/VaultAppRoleKvV2Client.java:272-274 | after a put the key holds (value, expiresAt) and is most recently used; the cache stays within capacity; every other key still present keeps its entry |
| LruCache.PutNewWhenFullEvictsEldest | src/main/java/com/ryan/vault/secrets/providers/VaultAppRoleKvV2Client.java:232-235 | a new key put into a full cache evicts exactly the least recently used entry, and the new key goes last |
| LruCache.PutNewWithRoomKeepsAll | src/main/java/com/ryan/vault/secrets/providers/VaultAppRoleKvV2Client.java:272-274 | a new key put into a cache with room evicts nothing |
| LruCache.PutReplaceEvictsNothing | src/main/java/com/ryan/vault/secrets/providers/VaultAppRoleKvV2Client.java:272-274 | replacing a present key keeps the same keys, updates that entry, and moves the key last |
| LruCache.PutWhenFullStaysFull | src/main/java/com/ryan/vault/secrets/providers/VaultAppRoleKvV2Client.java:232-235 | once the cache is full, every further put leaves exactly maxEntries entries |
| LruCache.DistinctKeysCount | src/main/java/com/ryan/vault/secrets/providers/VaultAppRoleKvV2Client.java:234 | the map's `size()` equals the length of the recency list |
| LruCache.EvictsLeastRecentlyUsed | src/main/java/com/ryan/vault/secrets/providers/VaultAppRoleKvV2Client.java:230-237 | with capacity 2, putting a, b and c evicts a and keeps b then c |
| LruCache.GetProtectsFromEviction | src/main/java/com/ryan/vault/secrets/providers/VaultAppRoleKvV2Client.java:232 | with capacity 2, after a and b, a live get of a followed by a put of c evicts b and keeps a |
| LruCache.LruExpiringCache.constructor | src/main/java/com/ryan/vault/secrets/providers/VaultAppRoleKvV2Client.java:230-237 | the cache starts empty, with capacity `Math.max(1, maxEntries)` |
| LruCache.LruExpiringCache.Get | src/main/java/com/ryan/vault/secrets/providers/VaultAppRoleKvV2Client.java:255-263 | the in-place get returns, and leaves, what `Lookup` says |
| LruCache.LruExpiringCache.Put | src/main/java/com/ryan/vault/secrets/providers/VaultAppRoleKvV2Client.java:272-274 | the in-place put leaves what `Insert` says |
| LruCache.LruExpiringCache.Clear | src/main/java/com/ryan/vault/secrets/providers/VaultAppRoleKvV2Client.java:281-283 | clear leaves the cache empty |
| VaultClient.Wrap64 | src/main/java/com/ryan/vault/secrets/providers/VaultAppRoleKvV2Client.java:53 | the `long` result is in range, is congruent to the exact value modulo 2^64, and equals it when that fits |
| VaultClient.TtlMillis | src/main/java/com/ryan/vault/secrets/providers/VaultAppRoleKvV2Client.java:53 | the intended TTL is a non-negative multiple of 1000; it is positive exactly when ttlSeconds is; negative seconds clamp to 0 |
| VaultClient.TtlOverflowDisablesCache | src/main/java/com/ryan/vault/secrets/providers/VaultAppRoleKvV2Client.java:53 | a parseable positive ttlSeconds can wrap to a negative `cacheTtlMillis`, which switches caching off |
| VaultClient.TtlAgreesWithoutOverflow | src/main/java/com/ryan/vault/secrets/providers/VaultAppRoleKvV2Client.java:53 | up to Long.MAX_VALUE / 1000 seconds, the code as written and the intended TTL agree |
| VaultClient.Capacity | src/main/java/com/ryan/vault/secrets/providers/VaultAppRoleKvV2Client.java:231 | the capacity is at least 1, and is maxEntries when that is positive |
| VaultClient.ParseSettings | src/main/java/com/ryan/vault/secrets/providers/VaultAppRoleKvV2Client.java:42-55 | the constructor succeeds exactly when the three required settings are present and the three numbers parse; the failures come in the constructor's order: a missing addr, role_id or secret_id fails with "Missing property: <key>", and once all three are present the rest is `ParseTuning`; every field is the value `Config` reads, with addr's trailing slash trimmed and the TTL in milliseconds |
| VaultClient.ParseTuning | src/main/java/com/ryan/vault/secrets/providers/VaultAppRoleKvV2Client.java:48-54 | succeeds exactly when timeoutMs, ttlSeconds and maxEntries all parse; otherwise the first of them, in that order, that fails gives the failure; on success the settings hold the three parsed values, the TTL in milliseconds |
| VaultClient.ParseSettingsReadsOnly | src/main/java/com/ryan/vault/secrets/providers/VaultAppRoleKvV2Client.java:42-55 | the settings depend on the eight properties read and on nothing else |
| VaultClient.ParseSettingsDefaults | src/main/java/com/ryan/vault/secrets/providers/VaultAppRoleKvV2Client.java:44-52 | without the optional settings: mount "secret", login path "/v1/auth/approle/login", 5000 ms timeout, 300 s TTL, 200 entries |
| VaultClient.CacheKey | src/main/java/com/ryan/vault/secrets/providers/VaultAppRoleKvV2Client.java:100-102 | the key is the path, a '\|', then the key |
| VaultClient.CacheKeyCollides | src/main/java/com/ryan/vault/secrets/providers/VaultAppRoleKvV2Client.java:101 | ("a\|b", "c") and ("a", "b\|c") share a cache key |
| VaultClient.CacheKeyInjective | src/main/java/com/ryan/vault/secrets/providers/VaultAppRoleKvV2Client.java:101 | paths without '\|' never share a cache key |
| VaultClient.EscapeJsonByChar | src/main/java/com/ryan/vault/secrets/providers/VaultAppRoleKvV2Client.java:175-178 | doubling every '\\' and then escaping every '"' escapes character by character |
| VaultClient.EscapeJsonRoundTrip | src/main/java/com/ryan/vault/secrets/providers/VaultAppRoleKvV2Client.java:175-178 | `escapeJson`'s output never ends the string literal early, and reading it back gives the input |
| VaultClient.EscapedRoundTrip | src/main/java/com/ryan/vault/secrets/providers/VaultAppRoleKvV2Client.java:177 | the per-character escape is read back exactly |
| VaultClient.EscapedIsJackson | src/main/java/com/ryan/vault/secrets/providers/VaultAppRoleKvV2Client.java:177 | for text without control characters, `escapeJson` writes what Jackson writes |
| VaultClient.LoginUrl | src/main/java/com/ryan/vault/secrets/providers/VaultAppRoleKvV2Client.java:113 | the login URL is addr, then a '/', ending with the login path; its length is that of addr plus that of the login path, plus one when the path lacks its leading '/' |
| VaultClient.LoginUrlSlashOptional | src/main/java/com/ryan/vault/secrets/providers/VaultAppRoleKvV2Client.java:113 | a login path without a leading '/' gets one |
| VaultClient.LoginPayloadIsJson | src/main/java/com/ryan/vault/secrets/providers/VaultAppRoleKvV2Client.java:121 | for identifiers without control characters, the payload is the JSON object `{role_id, secret_id}` |
| VaultClient.ReadUrl | src/main/java/com/ryan/vault/secrets/providers/VaultAppRoleKvV2Client.java:142-143 | the read URL is addr + "/v1/" + mount + "/data/" followed by the encoded path |
| VaultClient.ClassifyLogin | src/main/java/com/ryan/vault/secrets/providers/VaultAppRoleKvV2Client.java:128-137 | a non-2xx status fails with "Vault AppRole login failed HTTP <code>: <body>"; login succeeds exactly on a 2xx, parseable body holding a non-empty `auth.client_token`, which it returns; otherwise it fails with "missing auth.client_token", or with the I/O failure |
| VaultClient.NumericTokenAccepted | src/main/java/com/ryan/vault/secrets/providers/VaultAppRoleKvV2Client.java:133-137 | a numeric `auth.client_token` in a 2xx reply is accepted, and the token is its decimal text |
| VaultClient.ClassifyRead | src/main/java/com/ryan/vault/secrets/providers/VaultAppRoleKvV2Client.java:155-172 | status 404 fails with `SecretNotFoundException("Secret path not found: <path>")`; another non-2xx status fails with "Vault read failed HTTP <code>: <body>"; a read succeeds exactly when `data.data.<key>` is present and not null; a missing or null value gives "Key not found: <path>.<key>"; a string value is returned verbatim, and any other value as its JSON text |
| VaultClient.LoginStep | src/main/java/com/ryan/vault/secrets/providers/VaultAppRoleKvV2Client.java:112-138 | a login sends exactly one POST and leaves the token alone; a token it returns is non-empty |
| VaultClient.ReadStep | src/main/java/com/ryan/vault/secrets/providers/VaultAppRoleKvV2Client.java:140-173 | a read sends exactly one GET to the read URL with the given token |
| VaultClient.Wrap | src/main/java/com/ryan/vault/secrets/providers/VaultAppRoleKvV2Client.java:86-90 | getRequired throws only SecretExceptions: those pass through unchanged, and anything else is wrapped |
| VaultClient.EnsureTokenKeeps | src/main/java/com/ryan/vault/secrets/providers/VaultAppRoleKvV2Client.java:104-105 | with a non-empty token, ensureToken sends nothing and keeps the token |
| VaultClient.EnsureTokenLogsIn | src/main/java/com/ryan/vault/secrets/providers/VaultAppRoleKvV2Client.java:104-110 | with a null or empty token, ensureToken sends exactly one login; on success the new non-empty token is stored; on failure the token stays as it was |
| VaultClient.EnsureTokenHolds | src/main/java/com/ryan/vault/secrets/providers/VaultAppRoleKvV2Client.java:104-110 | after a successful ensureToken the held token is usable and is the one returned |
| VaultClient.FetchNeverStoresEmptyToken | src/main/java/com/ryan/vault/secrets/providers/VaultAppRoleKvV2Client.java:73-90 | no step of getRequired stores an empty token |
| VaultClient.EnsureTokenNeverStoresEmpty | src/main/java/com/ryan/vault/secrets/providers/VaultAppRoleKvV2Client.java:104-110 | `ensureToken` keeps a session free of an empty token |
| VaultClient.RetryNeverStoresEmptyToken | src/main/java/com/ryan/vault/secrets/providers/VaultAppRoleKvV2Client.java:79-81 | the retry, after clearing the token, never leaves an empty one |
| VaultClient.FetchFailsWithSecretException | src/main/java/com/ryan/vault/secrets/providers/VaultAppRoleKvV2Client.java:86-90 | every failure of the uncached path is a SecretException |
| VaultClient.EnsureTokenCounts | src/main/java/com/ryan/vault/secrets/providers/VaultAppRoleKvV2Client.java:104-110 | ensureToken appends at most one login and no read |
| VaultClient.ReadStepCounts | src/main/java/com/ryan/vault/secrets/providers/VaultAppRoleKvV2Client.java:140-173 | a read appends one read and no login |
| VaultClient.RetryCounts | src/main/java/com/ryan/vault/secrets/providers/VaultAppRoleKvV2Client.java:79-81 | the retry appends at most one login and one read |
| VaultClient.FetchRequestBounds | src/main/java/com/ryan/vault/secrets/providers/VaultAppRoleKvV2Client.java:73-90 | getRequired only appends requests: at most two logins and at most two reads |
| VaultClient.LoginFailureNotRetried | src/main/java/com/ryan/vault/secrets/providers/VaultAppRoleKvV2Client.java:73 | a failed first login is reported, with nothing read and no retry |
| VaultClient.NoRetryWithout403 | src/main/java/com/ryan/vault/secrets/providers/VaultAppRoleKvV2Client.java:75-84 | a first read that succeeds, or fails without "HTTP 403", is the only read, and its result is final |
| VaultClient.RetryOnceAfter403 | src/main/java/com/ryan/vault/secrets/providers/VaultAppRoleKvV2Client.java:76-85 | a first read failing with "HTTP 403" clears the token and logs in again; when that login fails, its error is reported and the token is null; when it succeeds, exactly one more read is made with the new token, and its result is final |
| VaultClient.FetchTakesRetry | src/main/java/com/ryan/vault/secrets/providers/VaultAppRoleKvV2Client.java:76-81 | after a 403, the rest of getRequired is the retry branch |
| VaultClient.RetryAfterLogin | src/main/java/com/ryan/vault/secrets/providers/VaultAppRoleKvV2Client.java:79-81 | when the retry's login succeeds, the retry is one read with the new token |
| VaultClient.RetryOn403 | src/main/java/com/ryan/vault/secrets/providers/VaultAppRoleKvV2Client.java:158-159 | a 403 refusal is retriable |
| VaultClient.ReadFailureFrom403 | src/main/java/com/ryan/vault/secrets/providers/VaultAppRoleKvV2Client.java:158-159 | any non-2xx status other than 404 whose decimal text starts with "403" is retriable |
| VaultClient.RetryOnStatus403x | src/main/java/com/ryan/vault/secrets/providers/VaultAppRoleKvV2Client.java:78 | statuses 4030..4039 also trigger the retry, because only the message is inspected |
| VaultClient.RetryOnPathContaining403 | src/main/java/com/ryan/vault/secrets/providers/VaultAppRoleKvV2Client.java:155-156 | a 404 for a path whose text contains "HTTP 403" also triggers the retry |
| VaultClient.ServeCacheHit | src/main/java/com/ryan/vault/secrets/providers/VaultAppRoleKvV2Client.java:65-68 | with a positive TTL, a live entry is returned with no request sent and the session unchanged |
| VaultClient.ServeCacheDisabled | src/main/java/com/ryan/vault/secrets/providers/VaultAppRoleKvV2Client.java:65-95 | with TTL <= 0 the cache is neither read nor written, and the answer is the fetch's |
| VaultClient.ServeMissStores | src/main/java/com/ryan/vault/secrets/providers/VaultAppRoleKvV2Client.java:63-98 | on a miss with a positive TTL, the fetched result is returned; a success is cached to expire at `ExpiresAt`, storedAt + ttl as a Java `long`, and a failure leaves nothing under the key |
| VaultClient.ExpiresAt | src/main/java/com/ryan/vault/secrets/providers/VaultAppRoleKvV2Client.java:94 | the expiry `storedAt + cacheTtlMillis` is a `long`, and equals the exact sum whenever that sum fits in one |
| VaultClient.ExpiryWrapsBeforeStoredAt | src/main/java/com/ryan/vault/secrets/providers/VaultAppRoleKvV2Client.java:94 | when storedAt + ttl passes `Long.MAX_VALUE`, the stored expiry lies before storedAt |
| VaultClient.CorrectedTtlStillExpires | src/main/java/com/ryan/vault/secrets/providers/VaultAppRoleKvV2Client.java:94 | with the corrected TTL of 9223372036854776 s, which exceeds `Long.MAX_VALUE` ms, the expiry at clock reading 1760000000000 still wraps to before that reading |
| VaultClient.HugeTtlStoresExpired | src/main/java/com/ryan/vault/secrets/providers/VaultAppRoleKvV2Client.java:51-53 | a TTL of 9223372036854775 s multiplies without overflow, yet at clock reading 1760000000000 its expiry wraps to before that reading |
| VaultClient.WrappedExpiryNeverHits | src/main/java/com/ryan/vault/secrets/providers/VaultAppRoleKvV2Client.java:93-95 | when storedAt + ttl wraps, the value a miss stores is never served: every get at or after storedAt finds it expired |
| VaultClient.StoreOutcome | src/main/java/com/ryan/vault/secrets/providers/VaultAppRoleKvV2Client.java:93-97 | the store step returns the fetched outcome, and caches a successful value to expire at `ExpiresAt` |
| VaultClient.StoreWellFormed | src/main/java/com/ryan/vault/secrets/providers/VaultAppRoleKvV2Client.java:93-95 | the store step keeps the cache within capacity |
| VaultClient.ServeWellFormed | src/main/java/com/ryan/vault/secrets/providers/VaultAppRoleKvV2Client.java:63-98 | getRequired keeps the cache within capacity, with each key listed once |
| VaultClient.ExpiringTokenRead | src/main/java/com/ryan/vault/secrets/providers/VaultAppRoleKvV2Client.java:155-159 | against the expiring-token backend, token T1 is refused retriably and T2 reads the secret |
| VaultClient.ExpiredTokenIsRenewed | src/main/java/com/ryan/vault/secrets/providers/VaultAppRoleKvV2Client.java:73-85 | against a backend whose first token expires, the caller gets the secret after exactly two logins and two reads, and the client keeps the second token |
| VaultClient.VaultAppRoleKvV2Client.constructor | src/main/java/com/ryan/vault/secrets/providers/VaultAppRoleKvV2Client.java:54 | a new client holds no token, has sent nothing, and has an empty cache of the configured capacity |
| VaultClient.VaultAppRoleKvV2Client.Open | src/main/java/com/ryan/vault/secrets/providers/VaultAppRoleKvV2Client.java:42-55 | construction fails exactly as `ParseSettings` does; otherwise it gives a fresh client over those settings |
| VaultClient.VaultAppRoleKvV2Client.Capabilities | src/main/java/com/ryan/vault/secrets/providers/VaultAppRoleKvV2Client.java:57-60 | `{KV_READ}` |
| VaultClient.VaultAppRoleKvV2Client.LoginAppRole | src/main/java/com/ryan/vault/secrets/providers/VaultAppRoleKvV2Client.java:112-138 | the in-place login does what `LoginStep` says |
| VaultClient.VaultAppRoleKvV2Client.EnsureToken | src/main/java/com/ryan/vault/secrets/providers/VaultAppRoleKvV2Client.java:104-110 | the in-place ensureToken does what `EnsureTokenStep` says, and never stores an empty token |
| VaultClient.VaultAppRoleKvV2Client.ReadKv2Secret | src/main/java/com/ryan/vault/secrets/providers/VaultAppRoleKvV2Client.java:140-173 | the in-place read does what `ReadStep` says |
| VaultClient.VaultAppRoleKvV2Client.FetchValue | src/main/java/com/ryan/vault/secrets/providers/VaultAppRoleKvV2Client.java:72-90 | the try block, including the token reset on the retry path, does what `Fetch` says |
| VaultClient.VaultAppRoleKvV2Client.StoreFetched | src/main/java/com/ryan/vault/secrets/providers/VaultAppRoleKvV2Client.java:93-95 | the in-place store does what `Store` says: a successful value, while the TTL is positive, is put under the key with the wrapped expiry `ExpiresAt` |
| VaultClient.VaultAppRoleKvV2Client.GetRequired | src/main/java/com/ryan/vault/secrets/providers/VaultAppRoleKvV2Client.java:63-98 | the in-place getRequired returns, and leaves in the cache and the session, what `Serve` says |
| VaultClient.VaultAppRoleKvV2Client.Close | src/main/java/com/ryan/vault/secrets/providers/VaultAppRoleKvV2Client.java:180-185 | close empties the cache and nulls the token |
| EnvSecrets.ReplaceCharOneByOne | src/main/java/com/ryan/vault/secrets/providers/EnvSecretsClient.java:25-27 | a one-character replacement keeps the length and changes only that character |
| EnvSecrets.EnvNameByChar | src/main/java/com/ryan/vault/secrets/providers/EnvSecretsClient.java:24-28 | the name has the length of `path + "_" + key`; each character is the joined character with '/', '-', '.' turned into '_', then upper-cased |
| EnvSecrets.EnvNameHasNoSeparators | src/main/java/com/ryan/vault/secrets/providers/EnvSecretsClient.java:25-28 | the name holds no '/', '-', '.' or lower-case ASCII letter |
| EnvSecrets.EnvNameNotInjective | src/main/java/com/ryan/vault/secrets/providers/EnvSecretsClient.java:24-28 | ("a/b", "c") and ("a-b", "c") both name `A_B_C` |
| EnvSecrets.GetRequired | src/main/java/com/ryan/vault/secrets/providers/EnvSecretsClient.java:22-35 | succeeds exactly when the variable is set and not blank, returning its value untrimmed; otherwise fails with `SecretNotFoundException("Missing environment secret: <name>")` |
| EnvSecrets.GetRequiredKeepsBlanks | src/main/java/com/ryan/vault/secrets/providers/EnvSecretsClient.java:34 | blanks around a found value are kept |
| EnvSecrets.GetRequiredBlankIsMissing | src/main/java/com/ryan/vault/secrets/providers/EnvSecretsClient.java:31-33 | a blank value is treated like an unset variable: a not-found |
| EnvSecrets.Capabilities | src/main/java/com/ryan/vault/secrets/providers/EnvSecretsClient.java:17-20 | `{KV_READ}` |
| PropertiesFileSecrets.PropKey | src/main/java/com/ryan/vault/secrets/providers/PropertiesFileSecretsClient.java:36 | the lookup key is the path, a '.', then the key |
| PropertiesFileSecrets.PropKeyCollides | src/main/java/com/ryan/vault/secrets/providers/PropertiesFileSecretsClient.java:36 | ("a.b", "c") and ("a", "b.c") share a lookup key |
| PropertiesFileSecrets.Lookup | src/main/java/com/ryan/vault/secrets/providers/PropertiesFileSecretsClient.java:35-45 | fails exactly when the entry is absent or blank, with "Missing property secret: <key> in file: <file>"; otherwise returns the trimmed value |
| PropertiesFileSecrets.LookupTrimmed | src/main/java/com/ryan/vault/secrets/providers/PropertiesFileSecretsClient.java:44 | a found value is non-empty, with no blank at either end |
| PropertiesFileSecrets.EmptyFindsNothing | src/main/java/com/ryan/vault/secrets/providers/PropertiesFileSecretsClient.java:39-42 | with nothing loaded, every lookup is that not-found |
| PropertiesFileSecrets.PropertiesFileSecretsClient.Open | src/main/java/com/ryan/vault/secrets/providers/PropertiesFileSecretsClient.java:24-27 | a missing `secrets.file.path` fails as `req` does; an unreadable file fails with "Failed to load secrets file: <path>"; otherwise a fresh client holds that path and that file's properties |
| PropertiesFileSecrets.PropertiesFileSecretsClient.Capabilities | src/main/java/com/ryan/vault/secrets/providers/PropertiesFileSecretsClient.java:29-32 | `{KV_READ}` |
| PropertiesFileSecrets.PropertiesFileSecretsClient.GetRequired | src/main/java/com/ryan/vault/secrets/providers/PropertiesFileSecretsClient.java:35-45 | the method returns what `Lookup` says for the loaded properties |
| PropertiesFileSecrets.PropertiesFileSecretsClient.Close | src/main/java/com/ryan/vault/secrets/providers/PropertiesFileSecretsClient.java:59-63 | close empties the map, and every later getRequired fails |
| Factory.Create | src/main/java/com/ryan/vault/secrets/SecretsClientFactory.java:20-32 | "vault" and "openbao" build the Vault client, or fail as its construction does; "env" builds the environment client; any other name fails with "Unknown secrets.provider: <name>" |
| Factory.NeverPropertiesFile | src/main/java/com/ryan/vault/secrets/SecretsClientFactory.java:20-32 | no configuration makes the factory build the properties-file client |
| Factory.DefaultName | src/main/java/com/ryan/vault/secrets/SecretsClientFactory.java:21 | without `secrets.provider` the name compared is "vault" |
| Factory.DefaultIsVault | src/main/java/com/ryan/vault/secrets/SecretsClientFactory.java:21 | without `secrets.provider` the Vault client is built, or its configuration failure is reported |
| Factory.ParseSettingsIgnoresProvider | src/main/java/com/ryan/vault/secrets/SecretsClientFactory.java:23-25 | the Vault client's settings do not depend on `secrets.provider` |
| Factory.SelectionIgnoresCaseAndBlanks | src/main/java/com/ryan/vault/secrets/SecretsClientFactory.java:21 | two values that agree after trimming and lower-casing select the same client |
| Factory.OpenBaoIsVault | src/main/java/com/ryan/vault/secrets/SecretsClientFactory.java:23 | "openbao", in any case and with any surrounding blanks, builds exactly what the default builds |
| Factory.BlankProviderIsUnknown | src/main/java/com/ryan/vault/secrets/SecretsClientFactory.java:31 | a blank `secrets.provider` is not the default: it fails as the unknown provider "" |
| Factory.EnvSelected | src/main/java/com/ryan/vault/secrets/SecretsClientFactory.java:27-29 | "env", in any case and with any surrounding blanks, selects the environment client |

## Left out

- HTTP transport (`HttpURLConnection`, timeouts, request streams, `HttpUtil.readResponseBody`) is I/O. It is the `Server` function, which returns a status, the body text and the parsed body. `timeoutMs` is read and kept in `Settings` but has no effect in the model.
- Jackson's `readTree` is a foreign library call. Its outcome is part of the reply: a tree, MissingNode for an empty body, or a parse failure reported as an `IoError`. JSON numbers are integers; floating-point numbers are not modelled.
- Jackson's `writeValueAsString`, used for a non-textual secret value, is modelled by `Json.Serialize`: compact output, members in document order, Jackson's standard string escapes. Floating-point numbers and Jackson's output options are outside it.
- Concurrency (`synchronized`, `volatile`, double-checked locking in `ensureToken`) is not modelled; every operation is sequential.
- `System.currentTimeMillis` is not modelled; the two readings in `getRequired` are parameters.
- `Config.load`, `PropertiesFileSecretsClient.loadFromDisk`, `Properties.load` and `System.getenv` are file and environment I/O; their results are maps passed in, and a file that cannot be read is a path missing from the map of readable files.
- Exception causes (the `e` passed to `new SecretException(..., e)`) are not kept; only the exception kind and message are.
- Null `path` or `key` arguments to `getRequired` are not modelled; Dafny strings are never null.
- `toUpperCase`, `toLowerCase` and the digits `parseInt` accepts are modelled for ASCII only; locale-dependent and non-ASCII case mapping and non-ASCII digits are outside the model.
- `VaultClient.LoginPayloadIsJson` requires identifiers without control characters, because `escapeJson` leaves them unescaped, so for such identifiers the payload is not the JSON Jackson would write.
- `EnvSecretsClient.close` is a no-op on a client without fields; the model has no class for it and nothing to close.
- `Main.java` is a command-line demonstration and is not part of this model.
- `SecretsClient.java` is an interface without logic; the providers' common operations are each provider's own members here, and `Secrets.Capability` stands for `SecretCapability`.
- `SecretException.java` and `SecretNotFoundException.java` are not part of this model; `Secrets.Failure` gives their kinds and messages.
- `cacheKey` (VaultAppRoleKvV2Client.java:101) joins path and key with `'|'`, so two secrets share a cache key when either part holds a `'|'`. The model follows the code; `VaultClient.CacheKeyCollides` shows such a collision, and `VaultClient.CacheKeyInjective` shows that keys without `'|'` never collide.
- The comment at VaultAppRoleKvV2Client.java:77 gives the retry's purpose: an invalid or expired token. Line 78, however, matches "HTTP 403" anywhere in the exception message. The model follows the code; `VaultClient.RetryOnStatus403x` and `VaultClient.RetryOnPathContaining403` show the consequences.
- `Json.Find` answers with the first member of a given name. The trees `readTree` builds never hold two members of one name, since Jackson keeps the last of duplicated names. The model does not restrict its trees to distinct names, so for a tree that `readTree` cannot produce the first member answers rather than the last.
- Dafny's `char` is a Unicode scalar value, so a Java string holding an unpaired UTF-16 surrogate cannot be represented. `URLEncoder.encode` would turn such a surrogate into `?`; that case is outside the model.

## Findings

| source | as written | input that shows it | evidently intended | confidence | as-written member | corrected member |
|---|---|---|---|---|---|---|
| src/main/java/com/ryan/vault/secrets/providers/VaultAppRoleKvV2Client.java:53 | `Math.max(0L, ttlSeconds) * 1000L` is computed in a 64-bit `long` and wraps around | `secrets.cache.ttlSeconds = 9223372036854776` parses as a long, but the product wraps to -9223372036854775616, so `cacheTtlMillis > 0L` is false and caching is silently switched off | a positive TTL in seconds gives a positive TTL in milliseconds | not executed | VaultClient.TtlMillisAsWritten (shown by VaultClient.TtlOverflowDisablesCache) | VaultClient.TtlMillis (used by VaultClient.ParseSettings; VaultClient.TtlAgreesWithoutOverflow shows the two agree below the overflow). For this very input the correction does not turn caching back on: the expiry `storedAt + cacheTtlMillis` still wraps to before `storedAt` (VaultClient.CorrectedTtlStillExpires, VaultClient.WrappedExpiryNeverHits), so the value is stored but never served, and only the cache's contents differ, not any answer |
